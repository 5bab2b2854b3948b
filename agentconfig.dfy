/** The agent's configuration (internal/agentconfig/agent-config.go):
    server address and port, poll and report intervals, merged from the
    command-line and environment parameter sources. A source gives its
    intervals in whole seconds; 123456789 seconds means "not given".

    The address and port validators of the netparamsvalidator package are
    parameters (`validIP`, `validPort`). */
module AgentConfig {
  import opened Wrappers
  import opened GoLib
  import opened ParamMerge

  /** `invalidDuration`: 123456789 s, in nanoseconds. */
  const InvalidDuration: Int64 := 123_456_789_000_000_000

  /** What one source (IParams) offers; GetPI and GetRI are Go ints. */
  datatype Params = Params(addr: string, port: string, pi: Int64, ri: Int64)

  function Addr(p: Params): string {
    p.addr
  }

  function Port(p: Params): string {
    p.port
  }

  /** `time.Duration(GetPI()) * time.Second`. */
  function PollDuration(p: Params): Int64 {
    Seconds(p.pi)
  }

  /** `time.Duration(GetRI()) * time.Second`. */
  function ReportDuration(p: Params): Int64 {
    Seconds(p.ri)
  }

  predicate Given(d: Int64) {
    d != InvalidDuration
  }

  lemma InvalidIsSentinelSeconds()
    ensures Seconds(123456789) == InvalidDuration
  {
  }

  /** An interval of zero seconds is taken like any other. */
  lemma ZeroIsGiven(p: Params)
    requires p.pi == 0
    ensures Given(PollDuration(p))
  {
  }

  /** The comparison is on nanoseconds after int64 wrap-around, so a
      source's interval of 123456789 + 2^55 seconds is dropped as "not
      given" too. */
  lemma SentinelAlias()
    ensures !Given(Seconds(123456789 + 0x80_0000_0000_0000))
  {
    var x := 123456789 * Second;
    assert (123456789 + 0x80_0000_0000_0000) * Second == x + 1_953_125 * TwoTo64;
    ModShift(x + TwoTo63, 1_953_125);
  }

  /** UpdateConfig's error text; `durationText` is time.Duration's String
      method, which is not part of the model. */
  function Problem(address: string, port: string, poll: Int64, report: Int64, durationText: Int64 -> string): string {
    "params problem; addr: " + address + ", port: " + port
    + ", poll interval: " + durationText(poll) + ", report interval: " + durationText(report)
  }

  class Config {
    var address: string
    var port: string
    var pollInterval: Int64
    var reportInterval: Int64

    /** The literal in NewConfig: empty address and port, 2 s poll, 10 s
        report. */
    constructor ()
      ensures address == "" && port == ""
      ensures pollInterval == 2 * Second && reportInterval == 10 * Second
    {
      address := "";
      port := "";
      pollInterval := 2 * Second;
      reportInterval := 10 * Second;
    }

    /** UpdateConfig: each field takes its latest accepted value over the
        sources; the result is nil exactly when address and port are set
        and neither interval is the sentinel. */
    method UpdateConfig(ps: seq<Params>, validIP: string -> bool, validPort: string -> bool, durationText: Int64 -> string)
      returns (err: GoError)
      modifies this
      ensures address == Or(old(address), LatestBy(ps, Addr, validIP))
      ensures port == Or(old(port), LatestBy(ps, Port, validPort))
      ensures pollInterval == Or(old(pollInterval), LatestBy(ps, PollDuration, Given))
      ensures reportInterval == Or(old(reportInterval), LatestBy(ps, ReportDuration, Given))
      ensures err == Nil <==> address != "" && port != "" && Given(pollInterval) && Given(reportInterval)
      ensures err != Nil ==> err == Error(Problem(address, port, pollInterval, reportInterval, durationText))
    {
      for i := 0 to |ps|
        invariant address == Or(old(address), LatestBy(ps[..i], Addr, validIP))
        invariant port == Or(old(port), LatestBy(ps[..i], Port, validPort))
        invariant pollInterval == Or(old(pollInterval), LatestBy(ps[..i], PollDuration, Given))
        invariant reportInterval == Or(old(reportInterval), LatestBy(ps[..i], ReportDuration, Given))
      {
        assert ps[..i + 1][..i] == ps[..i];
        var paramInstance := ps[i];
        var pollInterval := Seconds(paramInstance.pi);
        if pollInterval != InvalidDuration {
          this.pollInterval := pollInterval;
        }
        var reportInterval := Seconds(paramInstance.ri);
        if reportInterval != InvalidDuration {
          this.reportInterval := reportInterval;
        }
        var address := paramInstance.addr;
        if validIP(address) {
          this.address := address;
        }
        var port := paramInstance.port;
        if validPort(port) {
          this.port := port;
        }
      }
      assert ps[..|ps|] == ps;
      if address != "" && port != "" && pollInterval != InvalidDuration && reportInterval != InvalidDuration {
        return Nil;
      }
      return Error(Problem(address, port, pollInterval, reportInterval, durationText));
    }

    function GetAddress(): string
      reads this
    {
      address
    }

    function GetPort(): string
      reads this
    {
      port
    }

    function GetPollInterval(): Int64
      reads this
    {
      pollInterval
    }

    function GetReportInterval(): Int64
      reads this
    {
      reportInterval
    }
  }

  /** A merge never leaves the sentinel in an interval that did not start
      as it: the sentinel is exactly what a source cannot set. */
  lemma MergedIntervalGiven(init: Int64, ps: seq<Params>, f: Params -> Int64)
    requires Given(init)
    ensures Given(Or(init, LatestBy(ps, f, Given)))
  {
    if LatestBy(ps, f, Given).Some? {
      LatestByAccepted(ps, f, Given);
    }
  }

  /** NewConfig: the defaults merged with the command-line source, then the
      environment source; it panics exactly when the merged address or port
      is empty, as the default intervals are never the sentinel. */
  method NewConfig(cli: Params, env: Params, validIP: string -> bool, validPort: string -> bool, durationText: Int64 -> string)
    returns (c: Config, done: Completion)
    ensures fresh(c)
    ensures done == Returned <==>
      Or("", LatestBy([cli, env], Addr, validIP)) != "" && Or("", LatestBy([cli, env], Port, validPort)) != ""
    ensures done.Panicked? ==> done.reason == Problem(c.GetAddress(), c.GetPort(), c.GetPollInterval(), c.GetReportInterval(), durationText)
    ensures c.GetAddress() == Or("", LatestBy([cli, env], Addr, validIP))
    ensures c.GetPort() == Or("", LatestBy([cli, env], Port, validPort))
    ensures c.GetPollInterval() == Or(2 * Second, LatestBy([cli, env], PollDuration, Given))
    ensures c.GetReportInterval() == Or(10 * Second, LatestBy([cli, env], ReportDuration, Given))
  {
    c := new Config();
    var err := c.UpdateConfig([cli, env], validIP, validPort, durationText);
    MergedIntervalGiven(2 * Second, [cli, env], PollDuration);
    MergedIntervalGiven(10 * Second, [cli, env], ReportDuration);
    if err != Nil {
      return c, Panicked(err.msg);
    }
    done := Returned;
  }
}
