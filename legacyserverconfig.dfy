/** The earlier server configuration (internal/server-config/server-config.go):
    address and port only, merged from the command-line and environment
    sources, with the storage and the logger carried. The RWMutex field is
    never used and is not part of the model. */
module LegacyServerConfig {
  import opened Wrappers
  import opened ParamMerge

  /** What one source (IParams) offers. */
  datatype Params = Params(addr: string, port: string)

  function Addr(p: Params): string {
    p.addr
  }

  function Port(p: Params): string {
    p.port
  }

  class Config<Storage, Logger> {
    var address: string
    var port: string
    const storage: Storage
    const logger: Logger

    /** The literal in NewConfig. */
    constructor (storage: Storage, logger: Logger)
      ensures address == "" && port == ""
      ensures this.storage == storage && this.logger == logger
    {
      address := "";
      port := "";
      this.storage := storage;
      this.logger := logger;
    }

    /** UpdateConfig: address and port take their latest accepted values;
        the result is nil exactly when both are non-empty. */
    method UpdateConfig(ps: seq<Params>, validIP: string -> bool, validPort: string -> bool) returns (err: GoError)
      modifies this
      ensures address == Or(old(address), LatestBy(ps, Addr, validIP))
      ensures port == Or(old(port), LatestBy(ps, Port, validPort))
      ensures err == Nil <==> address != "" && port != ""
      ensures err != Nil ==> err == Error("params problem; addr: " + address + ", port: " + port)
    {
      for i := 0 to |ps|
        invariant address == Or(old(address), LatestBy(ps[..i], Addr, validIP))
        invariant port == Or(old(port), LatestBy(ps[..i], Port, validPort))
      {
        assert ps[..i + 1][..i] == ps[..i];
        var paramInstance := ps[i];
        var address := paramInstance.addr;
        if validIP(address) {
          this.address := address;
        }
        var port := paramInstance.port;
        if validPort(port) {
          this.port := port;
        }
      }
      assert ps[..|ps|] == ps;
      if address != "" && port != "" {
        return Nil;
      }
      return Error("params problem; addr: " + address + ", port: " + port);
    }

    function GetAddress(): string
      reads this
    {
      address
    }

    function GetPort(): string
      reads this
    {
      port
    }

    function GetStorage(): Storage {
      storage
    }

    function GetLogger(): Logger {
      logger
    }
  }

  /** NewConfig: the given storage and logger, the command-line source and
      then the environment source merged over empty defaults; it panics
      exactly when the merged address or port is empty. */
  method NewConfig<Storage, Logger>(storage: Storage, logger: Logger, cli: Params, env: Params,
                                    validIP: string -> bool, validPort: string -> bool)
    returns (c: Config<Storage, Logger>, done: Completion)
    ensures fresh(c)
    ensures done == Returned <==>
      Or("", LatestBy([cli, env], Addr, validIP)) != "" && Or("", LatestBy([cli, env], Port, validPort)) != ""
    ensures done.Panicked? ==> done.reason == "params problem; addr: " + c.GetAddress() + ", port: " + c.GetPort()
    ensures c.GetAddress() == Or("", LatestBy([cli, env], Addr, validIP))
    ensures c.GetPort() == Or("", LatestBy([cli, env], Port, validPort))
    ensures c.GetStorage() == storage && c.GetLogger() == logger
  {
    c := new Config(storage, logger);
    var err := c.UpdateConfig([cli, env], validIP, validPort);
    if err != Nil {
      return c, Panicked(err.msg);
    }
    done := Returned;
  }
}
