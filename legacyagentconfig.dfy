/** The earlier agent configuration (internal/agent-config/agent-config.go):
    as in AgentConfig, but a source gives its intervals as durations in
    nanoseconds, and the "not given" sentinel is 123456789 ns. The
    collector and the logger are carried but never consulted. */
module LegacyAgentConfig {
  import opened Wrappers
  import opened GoLib
  import opened ParamMerge

  /** `invalidDuration`: 123456789 ns. */
  const InvalidDuration: Int64 := 123456789

  /** What one source (IParams) offers; GetPI and GetRI are durations. */
  datatype Params = Params(addr: string, port: string, pi: Int64, ri: Int64)

  function Addr(p: Params): string {
    p.addr
  }

  function Port(p: Params): string {
    p.port
  }

  function PollInterval(p: Params): Int64 {
    p.pi
  }

  function ReportInterval(p: Params): Int64 {
    p.ri
  }

  predicate Given(d: Int64) {
    d != InvalidDuration
  }

  /** UpdateConfig's error text; `durationText` is time.Duration's String
      method, which is not part of the model. */
  function Problem(address: string, port: string, poll: Int64, report: Int64, durationText: Int64 -> string): string {
    "params problem; addr: " + address + ", port: " + port
    + ", poll interval: " + durationText(poll) + ", report interval: " + durationText(report)
  }

  class Config<Collector, Logger> {
    var address: string
    var port: string
    const collector: Collector
    var pollInterval: Int64
    var reportInterval: Int64
    const logger: Logger

    /** The literal in NewConfig: empty address and port, 2 s poll, 10 s
        report, and the collector and logger given. */
    constructor (collector: Collector, logger: Logger)
      ensures address == "" && port == ""
      ensures pollInterval == 2 * Second && reportInterval == 10 * Second
      ensures this.collector == collector && this.logger == logger
    {
      address := "";
      port := "";
      this.collector := collector;
      pollInterval := 2 * Second;
      reportInterval := 10 * Second;
      this.logger := logger;
    }

    /** UpdateConfig: each field takes its latest accepted value over the
        sources; the result is nil exactly when address and port are set
        and neither interval is the sentinel. */
    method UpdateConfig(ps: seq<Params>, validIP: string -> bool, validPort: string -> bool, durationText: Int64 -> string)
      returns (err: GoError)
      modifies this
      ensures address == Or(old(address), LatestBy(ps, Addr, validIP))
      ensures port == Or(old(port), LatestBy(ps, Port, validPort))
      ensures pollInterval == Or(old(pollInterval), LatestBy(ps, PollInterval, Given))
      ensures reportInterval == Or(old(reportInterval), LatestBy(ps, ReportInterval, Given))
      ensures err == Nil <==> address != "" && port != "" && Given(pollInterval) && Given(reportInterval)
      ensures err != Nil ==> err == Error(Problem(address, port, pollInterval, reportInterval, durationText))
    {
      for i := 0 to |ps|
        invariant address == Or(old(address), LatestBy(ps[..i], Addr, validIP))
        invariant port == Or(old(port), LatestBy(ps[..i], Port, validPort))
        invariant pollInterval == Or(old(pollInterval), LatestBy(ps[..i], PollInterval, Given))
        invariant reportInterval == Or(old(reportInterval), LatestBy(ps[..i], ReportInterval, Given))
      {
        assert ps[..i + 1][..i] == ps[..i];
        var paramInstance := ps[i];
        var pollInterval := paramInstance.pi;
        if pollInterval != InvalidDuration {
          this.pollInterval := pollInterval;
        }
        var reportInterval := paramInstance.ri;
        if reportInterval != InvalidDuration {
          this.reportInterval := reportInterval;
        }
        var address := paramInstance.addr;
        if validIP(address) {
          this.address := address;
        }
        var port := paramInstance.port;
        if validPort(port) {
          this.port := port;
        }
      }
      assert ps[..|ps|] == ps;
      if address != "" && port != "" && pollInterval != InvalidDuration && reportInterval != InvalidDuration {
        return Nil;
      }
      return Error(Problem(address, port, pollInterval, reportInterval, durationText));
    }

    function GetAddress(): string
      reads this
    {
      address
    }

    function GetPort(): string
      reads this
    {
      port
    }

    function GetPI(): Int64
      reads this
    {
      pollInterval
    }

    function GetRI(): Int64
      reads this
    {
      reportInterval
    }

    function GetCollector(): Collector {
      collector
    }

    function GetLogger(): Logger {
      logger
    }
  }

  /** The sentinel is exactly what a source cannot set, so a merge from a
      non-sentinel interval never ends on it. */
  lemma MergedIntervalGiven(init: Int64, ps: seq<Params>, f: Params -> Int64)
    requires Given(init)
    ensures Given(Or(init, LatestBy(ps, f, Given)))
  {
    if LatestBy(ps, f, Given).Some? {
      LatestByAccepted(ps, f, Given);
    }
  }

  /** NewConfig: the defaults merged with the command-line source, then the
      environment source; it panics exactly when the merged address or port
      is empty. */
  method NewConfig<Collector, Logger>(collector: Collector, logger: Logger, cli: Params, env: Params,
                                      validIP: string -> bool, validPort: string -> bool, durationText: Int64 -> string)
    returns (c: Config<Collector, Logger>, done: Completion)
    ensures fresh(c)
    ensures done == Returned <==>
      Or("", LatestBy([cli, env], Addr, validIP)) != "" && Or("", LatestBy([cli, env], Port, validPort)) != ""
    ensures done.Panicked? ==> done.reason == Problem(c.GetAddress(), c.GetPort(), c.GetPI(), c.GetRI(), durationText)
    ensures c.GetAddress() == Or("", LatestBy([cli, env], Addr, validIP))
    ensures c.GetPort() == Or("", LatestBy([cli, env], Port, validPort))
    ensures c.GetPI() == Or(2 * Second, LatestBy([cli, env], PollInterval, Given))
    ensures c.GetRI() == Or(10 * Second, LatestBy([cli, env], ReportInterval, Given))
    ensures c.GetCollector() == collector && c.GetLogger() == logger
  {
    c := new Config(collector, logger);
    var err := c.UpdateConfig([cli, env], validIP, validPort, durationText);
    MergedIntervalGiven(2 * Second, [cli, env], PollInterval);
    MergedIntervalGiven(10 * Second, [cli, env], ReportInterval);
    if err != Nil {
      return c, Panicked(err.msg);
    }
    done := Returned;
  }
}
