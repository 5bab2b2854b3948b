/** The server's configuration (internal/serverconfig/server-config.go):
    listening address and port plus the store's FileSaver settings, merged
    from the command-line and environment parameter sources.

    The address and port validators of the netparamsvalidator package are
    parameters (`validIP`, `validPort`); parsing the command line and the
    environment is not part of the model, its results are the sources. */
module ServerConfig {
  import opened Wrappers
  import opened GoLib
  import opened ParamMerge
  import FS = FileSaver

  /** `invalidDuration`, the "not given" store interval, in seconds. */
  const InvalidDuration: Int64 := 123456789

  /** What one source (IParams) offers. `restore` is GetRestore's `*bool`. */
  datatype Params = Params(addr: string, port: string, storeInterval: Int64, filePath: string, restore: Option<bool>)

  function Addr(p: Params): string {
    p.addr
  }

  function Port(p: Params): string {
    p.port
  }

  function StoreInterval(p: Params): Int64 {
    p.storeInterval
  }

  function FilePath(p: Params): string {
    p.filePath
  }

  function Restore(p: Params): Option<bool> {
    p.restore
  }

  predicate Given(si: Int64) {
    si != InvalidDuration
  }

  predicate NonEmpty(s: string) {
    s != ""
  }

  predicate IsSet(r: Option<bool>) {
    r.Some?
  }

  /** The restore flag after the merge: the latest flag a source set, or
      `before`. */
  function RestoreFlag(before: bool, latest: Option<Option<bool>>): bool {
    if latest.Some? && latest.value.Some? then latest.value.value else before
  }

  /** A source whose store interval is applied and is a negative number of
      nanoseconds: `time.NewTicker` panics on it. */
  predicate PanicsOn(p: Params) {
    Given(p.storeInterval) && Seconds(p.storeInterval) < 0
  }

  /** How UpdateConfig ends: its error, or the ticker's panic. */
  datatype UpdateOutcome = Merged(err: GoError) | MergePanicked

  /** The FileSaver settings after the store-interval part of the merge. */
  predicate IntervalMerged(after: FS.Settings, before: FS.Settings, latest: Option<Int64>) {
    match latest
    case None =>
      after.storeInterval == before.storeInterval && after.saveTicker == before.saveTicker
      && after.synchronizedSaving == before.synchronizedSaving
    case Some(si) => after.storeInterval == Seconds(si) && FS.ModeConsistent(after)
  }

  /** The configuration's state: address, port and the FileSaver value. */
  datatype Conf = Conf(address: string, port: string, fs: FS.Settings)

  /** The FileSaver part of one pass: the store interval (which may
      panic), then the file path, then the restore flag. */
  function WithSource(fs: FS.Settings, p: Params): Option<FS.Settings> {
    var f := if Given(p.storeInterval) then FS.WithStoreInterval(fs, p.storeInterval) else Some(fs);
    match f
    case None => None
    case Some(f) =>
      var f1 := if p.filePath != "" then f.(filePath := p.filePath) else f;
      Some(if p.restore.Some? then f1.(restore := p.restore.value) else f1)
  }

  /** One pass of UpdateConfig's loop over a source: address, port, then
      the FileSaver fields. */
  function ApplySource(c: Conf, p: Params, validIP: string -> bool, validPort: string -> bool): Option<Conf> {
    match WithSource(c.fs, p)
    case None => None
    case Some(f) => Some(Conf(if validIP(p.addr) then p.addr else c.address, if validPort(p.port) then p.port else c.port, f))
  }

  /** The sources applied in order; None once one of them panics. */
  function Merge(c: Conf, ps: seq<Params>, validIP: string -> bool, validPort: string -> bool): Option<Conf> {
    if ps == [] then Some(c)
    else
      var n := |ps| - 1;
      match Merge(c, ps[..n], validIP, validPort)
      case None => None
      case Some(m) => ApplySource(m, ps[n], validIP, validPort)
  }

  /** The merge panics exactly when a source's applied store interval is
      negative. */
  lemma {:induction false} MergePanics(c: Conf, ps: seq<Params>, validIP: string -> bool, validPort: string -> bool)
    ensures Merge(c, ps, validIP, validPort).None? <==> exists i :: 0 <= i < |ps| && PanicsOn(ps[i])
  {
    if ps != [] {
      var n := |ps| - 1;
      MergePanics(c, ps[..n], validIP, validPort);
      assert forall i :: 0 <= i < n ==> ps[..n][i] == ps[i];
    }
  }

  /** Address and port take the latest value their validator accepts. */
  lemma {:induction false} MergeAddressPort(c: Conf, ps: seq<Params>, validIP: string -> bool, validPort: string -> bool)
    requires Merge(c, ps, validIP, validPort).Some?
    ensures Merge(c, ps, validIP, validPort).value.address == Or(c.address, LatestBy(ps, Addr, validIP))
    ensures Merge(c, ps, validIP, validPort).value.port == Or(c.port, LatestBy(ps, Port, validPort))
  {
    if ps != [] {
      MergeAddressPort(c, ps[..|ps| - 1], validIP, validPort);
    }
  }

  /** The store interval is the latest one given, in nanoseconds, with the
      mode SetStoreInterval selects for it. */
  lemma {:induction false} MergeInterval(c: Conf, ps: seq<Params>, validIP: string -> bool, validPort: string -> bool)
    requires Merge(c, ps, validIP, validPort).Some?
    ensures IntervalMerged(Merge(c, ps, validIP, validPort).value.fs, c.fs, LatestBy(ps, StoreInterval, Given))
  {
    if ps != [] {
      MergeInterval(c, ps[..|ps| - 1], validIP, validPort);
    }
  }

  /** The file path is the latest non-empty one, the restore flag the
      latest one set. */
  lemma {:induction false} MergePathRestore(c: Conf, ps: seq<Params>, validIP: string -> bool, validPort: string -> bool)
    requires Merge(c, ps, validIP, validPort).Some?
    ensures Merge(c, ps, validIP, validPort).value.fs.filePath == Or(c.fs.filePath, LatestBy(ps, FilePath, NonEmpty))
    ensures Merge(c, ps, validIP, validPort).value.fs.restore == RestoreFlag(c.fs.restore, LatestBy(ps, Restore, IsSet))
  {
    if ps != [] {
      MergePathRestore(c, ps[..|ps| - 1], validIP, validPort);
    }
  }

  /** What UpdateConfig does to each field: it takes the latest accepted
      value over the sources, or keeps the one it had. */
  predicate FieldsMerged(before: Conf, after: Conf, ps: seq<Params>, validIP: string -> bool, validPort: string -> bool) {
    && after.address == Or(before.address, LatestBy(ps, Addr, validIP))
    && after.port == Or(before.port, LatestBy(ps, Port, validPort))
    && IntervalMerged(after.fs, before.fs, LatestBy(ps, StoreInterval, Given))
    && after.fs.filePath == Or(before.fs.filePath, LatestBy(ps, FilePath, NonEmpty))
    && after.fs.restore == RestoreFlag(before.fs.restore, LatestBy(ps, Restore, IsSet))
  }

  lemma MergeFields(c: Conf, ps: seq<Params>, validIP: string -> bool, validPort: string -> bool)
    requires Merge(c, ps, validIP, validPort).Some?
    ensures FieldsMerged(c, Merge(c, ps, validIP, validPort).value, ps, validIP, validPort)
  {
    MergeAddressPort(c, ps, validIP, validPort);
    MergeInterval(c, ps, validIP, validPort);
    MergePathRestore(c, ps, validIP, validPort);
  }

  /** A store interval that starts even stays even: every interval the
      merge sets is a whole number of seconds. */
  lemma MergeKeepsParity(c: Conf, ps: seq<Params>, validIP: string -> bool, validPort: string -> bool)
    requires Merge(c, ps, validIP, validPort).Some? && c.fs.storeInterval % 2 == 0
    ensures Merge(c, ps, validIP, validPort).value.fs.storeInterval % 2 == 0
  {
    MergeInterval(c, ps, validIP, validPort);
    var latest := LatestBy(ps, StoreInterval, Given);
    if latest.Some? {
      SecondsIsEven(latest.value);
    }
  }

  /** Once a prefix of the sources has panicked, so has the whole merge. */
  lemma {:induction false} MergePrefixPanics(c: Conf, ps: seq<Params>, k: nat, validIP: string -> bool, validPort: string -> bool)
    requires k <= |ps| && Merge(c, ps[..k], validIP, validPort).None?
    ensures Merge(c, ps, validIP, validPort).None?
    decreases |ps|
  {
    if k < |ps| {
      var n := |ps| - 1;
      assert ps[..n][..k] == ps[..k];
      MergePrefixPanics(c, ps[..n], k, validIP, validPort);
    } else {
      assert ps[..k] == ps;
    }
  }

  /** The FileSaver setters one pass of UpdateConfig's loop calls. */
  method ApplySettings(fs: FS.FileSaver, paramInstance: Params) returns (panicked: bool)
    modifies fs
    ensures panicked <==> WithSource(old(fs.Value()), paramInstance).None?
    ensures !panicked ==> fs.Value() == WithSource(old(fs.Value()), paramInstance).value
  {
    var storeInterval := paramInstance.storeInterval;
    if storeInterval != InvalidDuration {
      var c := fs.SetStoreInterval(storeInterval);
      if c.Panicked? {
        return true;
      }
    }
    var filePath := paramInstance.filePath;
    if filePath != "" {
      fs.SetFilePath(filePath);
    }
    var restore := paramInstance.restore;
    if restore.Some? {
      fs.SetRestore(restore.value);
    }
    panicked := false;
  }

  class Config {
    var address: string
    var port: string
    /** The Config's own FileSaver value. */
    const fs: FS.FileSaver

    /** The literal in NewConfig: empty address and port, and
        `NewFileSaver(300, "./tmp/metrics-db.json", true)`. */
    constructor ()
      ensures address == "" && port == "" && fresh(fs)
      ensures fs.Value() == FS.Settings(Seconds(300), "./tmp/metrics-db.json", true, None, false)
    {
      address := "";
      port := "";
      fs := new FS.FileSaver(300, "./tmp/metrics-db.json", true);
    }

    ghost function Current(): Conf
      reads this, fs
    {
      Conf(address, port, fs.Value())
    }

    /** One pass of UpdateConfig's loop: the address and port when their
        validator accepts them, then the FileSaver setters for the fields
        the source gives. */
    method ApplyOne(paramInstance: Params, validIP: string -> bool, validPort: string -> bool) returns (panicked: bool)
      modifies this, fs
      ensures panicked <==> ApplySource(old(Current()), paramInstance, validIP, validPort).None?
      ensures !panicked ==> Current() == ApplySource(old(Current()), paramInstance, validIP, validPort).value
    {
      var address := paramInstance.addr;
      if validIP(address) {
        this.address := address;
      }
      var port := paramInstance.port;
      if validPort(port) {
        this.port := port;
      }
      panicked := ApplySettings(fs, paramInstance);
    }

    /** UpdateConfig: each field takes its latest accepted value over the
        sources; the result is nil exactly when address and port are both
        set (the store interval, whole seconds in nanoseconds, is even and
        so never the odd 123456789 the final check compares it with). A
        negative applied store interval panics. */
    method UpdateConfig(ps: seq<Params>, validIP: string -> bool, validPort: string -> bool) returns (r: UpdateOutcome)
      modifies this, fs
      ensures r == MergePanicked <==> Merge(old(Current()), ps, validIP, validPort).None?
      ensures r == MergePanicked <==> exists i :: 0 <= i < |ps| && PanicsOn(ps[i])
      ensures r.Merged? ==> Current() == Merge(old(Current()), ps, validIP, validPort).value
      ensures r.Merged? ==> FieldsMerged(old(Current()), Current(), ps, validIP, validPort)
      ensures r.Merged? ==> (r.err == Nil <==> address != "" && port != "" && fs.storeInterval != 123456789)
      ensures r.Merged? && old(fs.storeInterval) % 2 == 0 ==> (r.err == Nil <==> address != "" && port != "")
      ensures r.Merged? && r.err != Nil ==> r.err == Error("params problem; addr: " + address + ", port: " + port)
    {
      ghost var start := Current();
      MergePanics(start, ps, validIP, validPort);
      for i := 0 to |ps|
        invariant Merge(start, ps[..i], validIP, validPort) == Some(Current())
      {
        assert ps[..i + 1][..i] == ps[..i];
        var panicked := ApplyOne(ps[i], validIP, validPort);
        if panicked {
          MergePrefixPanics(start, ps, i + 1, validIP, validPort);
          return MergePanicked;
        }
      }
      assert ps[..|ps|] == ps;
      MergeFields(start, ps, validIP, validPort);
      if start.fs.storeInterval % 2 == 0 {
        MergeKeepsParity(start, ps, validIP, validPort);
      }
      if address != "" && port != "" && fs.storeInterval != 123456789 {
        return Merged(Nil);
      }
      return Merged(Error("params problem; addr: " + address + ", port: " + port));
    }

    function GetAddress(): string
      reads this
    {
      address
    }

    function GetPort(): string
      reads this
    {
      port
    }

    /** GetFileSaver: a copy of the settings. */
    function GetFileSaver(): FS.Settings
      reads this, fs
    {
      fs.Value()
    }
  }

  /** NewConfig: the defaults, merged with the command-line source and then
      the environment source; a failed merge panics. */
  method NewConfig(cli: Params, env: Params, validIP: string -> bool, validPort: string -> bool)
    returns (c: Config, done: Completion)
    ensures fresh(c) && fresh(c.fs)
    ensures done == Returned <==>
      && !PanicsOn(cli) && !PanicsOn(env)
      && Or("", LatestBy([cli, env], Addr, validIP)) != ""
      && Or("", LatestBy([cli, env], Port, validPort)) != ""
    ensures done == Returned ==>
      && c.GetAddress() == Or("", LatestBy([cli, env], Addr, validIP))
      && c.GetPort() == Or("", LatestBy([cli, env], Port, validPort))
      && c.GetFileSaver().filePath == Or("./tmp/metrics-db.json", LatestBy([cli, env], FilePath, NonEmpty))
      && c.GetFileSaver().restore == RestoreFlag(true, LatestBy([cli, env], Restore, IsSet))
      && IntervalMerged(c.GetFileSaver(), FS.Settings(Seconds(300), "./tmp/metrics-db.json", true, None, false),
                        LatestBy([cli, env], StoreInterval, Given))
  {
    c := new Config();
    SecondsIsEven(300);
    var r := c.UpdateConfig([cli, env], validIP, validPort);
    if r.MergePanicked? {
      return c, Panicked("non-positive interval for NewTicker");
    }
    if r.err != Nil {
      return c, Panicked(r.err.msg);
    }
    done := Returned;
  }

  /** Without a store interval from either source, the FileSaver keeps
      NewFileSaver's ticker mode with no ticker: RunFileSaver will then
      dereference a nil ticker. */
  lemma DefaultIntervalHasNoTicker(cli: Params, env: Params)
    requires !Given(cli.storeInterval) && !Given(env.storeInterval)
    ensures LatestBy([cli, env], StoreInterval, Given).None?
  {
    LatestByNone([cli, env], StoreInterval, Given);
  }
}
