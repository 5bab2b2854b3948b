/** The lock protocol of the two server stores: the `sync.RWMutex` calls each
    request makes, in order, as written and as corrected
    (internal/storage/memorystorage/memorystorage.go and
    internal/storage/memstorage/memstorage.go).

    One goroutine's calls are run against a mutex nobody else holds. Then a
    call that has to wait can never proceed, since only that goroutine could
    release what it waits for; Go reports such a wait as a deadlock. Other
    goroutines and the RWMutex's writer preference are not modelled. */
module StoreLocks {

  /** A sync.RWMutex: whether a writer holds it, and how many readers. */
  datatype RWMutex = RWMutex(writer: bool, readers: nat)

  const Free: RWMutex := RWMutex(false, 0)

  datatype Op = Lock | Unlock | RLock | RUnlock

  /** How a run of calls ends: all of them return, the call at `step` waits
      forever, or the call at `step` is a fatal error (releasing a mutex
      that is not held). */
  datatype Outcome = Completed(m: RWMutex) | BlockedAt(step: nat) | FatalAt(step: nat)

  /** A writer excludes readers. */
  predicate Exclusive(m: RWMutex) {
    m.writer ==> m.readers == 0
  }

  /** One call. A call that returns keeps writers and readers exclusive,
      and a writer gets the mutex only when nobody held it. */
  function Step(m: RWMutex, op: Op): (r: Outcome)
    ensures r.Completed? && Exclusive(m) ==> Exclusive(r.m)
    ensures r.Completed? && r.m.writer && !m.writer ==> m == Free
  {
    match op
    case Lock => if !m.writer && m.readers == 0 then Completed(RWMutex(true, 0)) else BlockedAt(0)
    case RLock => if !m.writer then Completed(m.(readers := m.readers + 1)) else BlockedAt(0)
    case Unlock => if m.writer then Completed(m.(writer := false)) else FatalAt(0)
    case RUnlock => if m.readers > 0 then Completed(m.(readers := m.readers - 1)) else FatalAt(0)
  }

  /** A failure `k` calls further on. */
  function Later(r: Outcome, k: nat): Outcome {
    match r
    case Completed(m) => Completed(m)
    case BlockedAt(s) => BlockedAt(s + k)
    case FatalAt(s) => FatalAt(s + k)
  }

  /** The calls in order, stopping at the first that waits or fails. */
  function Run(m: RWMutex, ops: seq<Op>): Outcome
    decreases |ops|
  {
    if ops == [] then Completed(m)
    else
      match Step(m, ops[0])
      case Completed(m') => Later(Run(m', ops[1..]), 1)
      case BlockedAt(s) => BlockedAt(s)
      case FatalAt(s) => FatalAt(s)
  }

  /** Running two stretches of calls is running the first, then the second
      from where the first left the mutex. */
  lemma {:induction false} RunAppend(m: RWMutex, a: seq<Op>, b: seq<Op>)
    ensures Run(m, a + b) ==
      match Run(m, a)
      case Completed(m') => Later(Run(m', b), |a|)
      case BlockedAt(s) => BlockedAt(s)
      case FatalAt(s) => FatalAt(s)
    decreases |a|
  {
    if a != [] {
      assert (a + b)[1..] == a[1..] + b;
      match Step(m, a[0])
      case Completed(m') =>
        RunAppend(m', a[1..], b);
      case BlockedAt(_) =>
      case FatalAt(_) =>
    } else {
      assert a + b == b;
      match Run(m, b)
      case Completed(_) =>
      case BlockedAt(_) =>
      case FatalAt(_) =>
    }
  }

  /** Calls made of whole critical sections, `Lock; ...; Unlock` or
      `RLock; ...; RUnlock`, one after another. */
  predicate Balanced(ops: seq<Op>)
    decreases |ops|
  {
    ops == [] ||
    (|ops| >= 2 && ((ops[0] == Lock && ops[1] == Unlock) || (ops[0] == RLock && ops[1] == RUnlock)) && Balanced(ops[2..]))
  }

  /** Whole critical sections from a free mutex return and leave it free. */
  lemma {:induction false} BalancedFromFree(ops: seq<Op>)
    requires Balanced(ops)
    ensures Run(Free, ops) == Completed(Free)
    decreases |ops|
  {
    if ops != [] {
      BalancedFromFree(ops[2..]);
      assert ops[1..][1..] == ops[2..];
    }
  }

  lemma {:induction false} BalancedAppend(a: seq<Op>, b: seq<Op>)
    requires Balanced(a) && Balanced(b)
    ensures Balanced(a + b)
    decreases |a|
  {
    if a != [] {
      BalancedAppend(a[2..], b);
      assert (a + b)[2..] == a[2..] + b;
    } else {
      assert a + b == b;
    }
  }

  const Writing: seq<Op> := [Lock, Unlock]
  const Reading: seq<Op> := [RLock, RUnlock]

  /** `n` read sections in a row. */
  function Reads(n: nat): (ops: seq<Op>)
    ensures Balanced(ops) && |ops| == 2 * n
  {
    if n == 0 then [] else Reading + Reads(n - 1)
  }

  // ------------------------------------------------- memorystorage.MemoryStorage

  /** Get and GetAll: one read section (Get checks the name first). */
  function GetCalls(name: string): (ops: seq<Op>)
    ensures Balanced(ops) && (ops == [] <==> name == "")
  {
    if name == "" then [] else Reading
  }

  const GetAllCalls: seq<Op> := Reading

  /** Save as written: a valid metric is saved under Lock with the Unlock
      deferred, and in synchronized mode GetAll runs before that Unlock. */
  function SaveCallsAsWritten(valid: bool, synchronized: bool): seq<Op> {
    if !valid then [] else [Lock] + (if synchronized then GetAllCalls else []) + [Unlock]
  }

  /** Save: the map update in a write section, then, in synchronized mode,
      GetAll's read section. */
  function SaveCalls(valid: bool, synchronized: bool): (ops: seq<Op>)
    ensures Balanced(ops)
  {
    if !valid then [] else Writing + (if synchronized then GetAllCalls else [])
  }

  /** The first valid Save in synchronized mode waits forever at its RLock,
      the second call. */
  lemma SaveAsWrittenDeadlocks()
    ensures Run(Free, SaveCallsAsWritten(true, true)) == BlockedAt(1)
  {
    assert SaveCallsAsWritten(true, true) == [Lock, RLock, RUnlock, Unlock];
  }

  /** In ticker mode Save as written is a plain write section. */
  lemma SaveAsWrittenTickerMode(valid: bool)
    ensures SaveCallsAsWritten(valid, false) == SaveCalls(valid, false)
    ensures Run(Free, SaveCallsAsWritten(valid, false)) == Completed(Free)
  {
    if valid {
      assert SaveCallsAsWritten(true, false) == Writing;
      BalancedFromFree(Writing);
    }
  }

  // ------------------------------------------------ memstorage.InMemoryStorage

  /** What UpdateMetric is asked to do. `names` is how many entries
      ReadAllMetricsJSON visits in synchronized mode, each a ReadEntireMetric
      read section. */
  datatype Update = GaugeUpdate | CounterUpdate(incrementParses: bool) | OtherUpdate

  /** UpdateMetric as written: an increment that does not parse leaves the
      switch by `break` between Lock and Unlock. */
  function UpdateCallsAsWritten(u: Update, synchronized: bool, names: nat): seq<Op> {
    (match u
     case GaugeUpdate => Writing
     case CounterUpdate(parses) => if parses then Writing else [Lock]
     case OtherUpdate => [])
    + (if synchronized then Reads(names) else [])
  }

  /** UpdateMetric with the Unlock on every way out of the critical section. */
  function UpdateCalls(u: Update, synchronized: bool, names: nat): (ops: seq<Op>)
    ensures Balanced(ops)
  {
    var own := if u.OtherUpdate? then [] else Writing;
    BalancedAppend(own, if synchronized then Reads(names) else []);
    own + (if synchronized then Reads(names) else [])
  }

  /** ReadMetricValue, ReadAllMetrics and ReadEntireMetric: one read section. */
  const ReadCalls: seq<Op> := Reading

  /** A counter update whose increment does not parse returns with the lock
      held; every later request of the store then waits forever at its
      first call. */
  lemma UpdateAsWrittenLeavesLock(next: seq<Op>)
    requires next != [] && (next[0] == Lock || next[0] == RLock)
    ensures Run(Free, UpdateCallsAsWritten(CounterUpdate(false), false, 0)) == Completed(RWMutex(true, 0))
    ensures Run(Free, UpdateCallsAsWritten(CounterUpdate(false), false, 0) + next) == BlockedAt(1)
  {
    var ops := UpdateCallsAsWritten(CounterUpdate(false), false, 0);
    assert ops == [Lock];
    RunAppend(Free, ops, next);
  }

  /** In synchronized mode the same update waits forever in its own
      ReadAllMetricsJSON, as soon as there is an entry to read. */
  lemma UpdateAsWrittenSynchronizedDeadlocks(names: nat)
    requires names > 0
    ensures Run(Free, UpdateCallsAsWritten(CounterUpdate(false), true, names)) == BlockedAt(1)
  {
    var ops := UpdateCallsAsWritten(CounterUpdate(false), true, names);
    assert ops[..2] == [Lock, RLock];
  }

  // -------------------------------------------------------------- sessions

  /** One request to either store. */
  datatype Request =
    | Save(valid: bool, synchronized: bool)
    | Get(name: string)
    | GetAll
    | UpdateMetric(u: Update, synchronized: bool, names: nat)
    | Read

  /** A request's calls, corrected. */
  function Calls(r: Request): (ops: seq<Op>)
    ensures Balanced(ops)
  {
    match r
    case Save(v, s) => SaveCalls(v, s)
    case Get(n) => GetCalls(n)
    case GetAll => GetAllCalls
    case UpdateMetric(u, s, n) => UpdateCalls(u, s, n)
    case Read => ReadCalls
  }

  /** A request's calls as written. */
  function CallsAsWritten(r: Request): seq<Op> {
    match r
    case Save(v, s) => SaveCallsAsWritten(v, s)
    case UpdateMetric(u, s, n) => UpdateCallsAsWritten(u, s, n)
    case _ => Calls(r)
  }

  /** Requests served one after another. */
  function Session(rs: seq<Request>, calls: Request -> seq<Op>): seq<Op> {
    if rs == [] then [] else Session(rs[..|rs| - 1], calls) + calls(rs[|rs| - 1])
  }

  /** With the corrections, any sequence of requests from a free lock
      returns and leaves the lock free. */
  lemma {:induction false} SessionNeverBlocks(rs: seq<Request>)
    ensures Balanced(Session(rs, Calls))
    ensures Run(Free, Session(rs, Calls)) == Completed(Free)
  {
    if rs != [] {
      SessionNeverBlocks(rs[..|rs| - 1]);
      BalancedAppend(Session(rs[..|rs| - 1], Calls), Calls(rs[|rs| - 1]));
    }
    BalancedFromFree(Session(rs, Calls));
  }

  /** A request off the two defective paths. */
  predicate SafeAsWritten(r: Request) {
    !(r.Save? && r.valid && r.synchronized) && !(r.UpdateMetric? && r.u == CounterUpdate(false))
  }

  /** Such a request makes the corrected calls. */
  lemma AsWrittenAgrees(r: Request)
    requires SafeAsWritten(r)
    ensures CallsAsWritten(r) == Calls(r)
  {
    match r
    case Save(v, s) => SaveAsWrittenTickerMode(v);
    case UpdateMetric(u, s, k) =>
    case _ =>
  }

  /** As written, requests that avoid the two defective paths run as the
      corrected ones do. */
  lemma {:induction false} SessionAsWrittenAgrees(rs: seq<Request>)
    requires forall i :: 0 <= i < |rs| ==> SafeAsWritten(rs[i])
    ensures Session(rs, CallsAsWritten) == Session(rs, Calls)
  {
    if rs != [] {
      var n := |rs| - 1;
      SessionAsWrittenAgrees(rs[..n]);
      AsWrittenAgrees(rs[n]);
    }
  }
}
