/** The persistence settings of the server store
    (internal/storage/filesaver/filesaver.go).

    A store interval of zero seconds selects synchronized saving (every
    update is written through); any other interval installs a ticker of that
    period. Writing and reading the file (Save, Load) are not part of this
    model. */
module FileSaver {
  import opened Wrappers
  import opened GoLib

  /** A `*time.Ticker`, known by its period in nanoseconds. */
  datatype Ticker = Ticker(period: Int64)

  /** A copy of the struct, as Go passes a FileSaver by value. */
  datatype Settings = Settings(
    storeInterval: Int64,
    filePath: string,
    restore: bool,
    saveTicker: Option<Ticker>,
    synchronizedSaving: bool)

  /** The mode rule SetStoreInterval establishes: synchronized exactly when
      the interval is zero exactly when there is no ticker, and a ticker
      ticks with the store interval. */
  predicate ModeConsistent(s: Settings) {
    && (s.synchronizedSaving <==> s.storeInterval == 0)
    && (s.storeInterval == 0 <==> s.saveTicker.None?)
    && (s.saveTicker.Some? ==> s.saveTicker.value.period == s.storeInterval)
  }

  /** The settings SetStoreInterval leaves, or None where `time.NewTicker`
      panics on a negative period. */
  function WithStoreInterval(s: Settings, si: Int64): (r: Option<Settings>)
    ensures r.Some? <==> Seconds(si) >= 0
    ensures r.Some? ==> r.value.storeInterval == Seconds(si) && ModeConsistent(r.value)
    ensures r.Some? ==> r.value.filePath == s.filePath && r.value.restore == s.restore
  {
    var d := Seconds(si);
    if d == 0 then Some(s.(storeInterval := 0, saveTicker := None, synchronizedSaving := true))
    else if d < 0 then None
    else Some(s.(storeInterval := d, saveTicker := Some(Ticker(d)), synchronizedSaving := false))
  }

  class FileSaver {
    var storeInterval: Int64
    var filePath: string
    var restore: bool
    var saveTicker: Option<Ticker>
    var synchronizedSaving: bool

    /** NewFileSaver: the interval in nanoseconds, no ticker and no
        synchronized saving, whatever the interval. */
    constructor (si: Int64, fp: string, r: bool)
      ensures storeInterval == Seconds(si) && filePath == fp && restore == r
      ensures saveTicker == None && !synchronizedSaving
    {
      storeInterval := Seconds(si);
      filePath := fp;
      restore := r;
      saveTicker := None;
      synchronizedSaving := false;
    }

    function Value(): Settings
      reads this
    {
      Settings(storeInterval, filePath, restore, saveTicker, synchronizedSaving)
    }

    /** SetStoreInterval: zero seconds selects synchronized saving, anything
        else a ticker of that period. `time.NewTicker` panics on a negative
        period, after the interval field has been assigned. */
    method SetStoreInterval(si: Int64) returns (c: Completion)
      modifies this
      ensures storeInterval == Seconds(si)
      ensures filePath == old(filePath) && restore == old(restore)
      ensures c == Returned <==> Seconds(si) >= 0
      ensures c == Returned ==> ModeConsistent(Value()) && Value() == WithStoreInterval(old(Value()), si).value
      ensures c.Panicked? ==> saveTicker == old(saveTicker) && synchronizedSaving == old(synchronizedSaving)
    {
      storeInterval := Seconds(si);
      if storeInterval != 0 {
        if storeInterval < 0 {
          return Panicked("non-positive interval for NewTicker");
        }
        saveTicker := Some(Ticker(storeInterval));
        synchronizedSaving := false;
      } else {
        saveTicker := None;
        synchronizedSaving := true;
      }
      c := Returned;
    }

    /** SetFilePath changes the path and nothing else. */
    method SetFilePath(fp: string)
      modifies this
      ensures Value() == old(Value()).(filePath := fp)
    {
      filePath := fp;
    }

    /** SetRestore changes the restore flag and nothing else. */
    method SetRestore(r: bool)
      modifies this
      ensures Value() == old(Value()).(restore := r)
    {
      restore := r;
    }

    function GetRestore(): (r: bool)
      reads this
      ensures r == Value().restore
    {
      restore
    }

    function GetFilePath(): (fp: string)
      reads this
      ensures fp == Value().filePath
    {
      filePath
    }

    function GetSynchronizedFlag(): (b: bool)
      reads this
      ensures ModeConsistent(Value()) ==> (b <==> storeInterval == 0)
    {
      synchronizedSaving
    }

    /** GetTicker: nil in synchronized mode once the mode rule holds. */
    function GetTicker(): (t: Option<Ticker>)
      reads this
      ensures ModeConsistent(Value()) ==> (t.None? <==> synchronizedSaving)
      ensures ModeConsistent(Value()) && t.Some? ==> t.value.period == storeInterval
    {
      saveTicker
    }
  }

  /** The setters for path and restore flag keep the mode rule. */
  lemma PathAndRestoreKeepMode(s: Settings, fp: string, r: bool)
    requires ModeConsistent(s)
    ensures ModeConsistent(s.(filePath := fp)) && ModeConsistent(s.(restore := r))
  {
  }

  /** Any multiple of 2^55 seconds is 0 nanoseconds after int64 wrap-around
      (2^55 * 10^9 = 5^9 * 2^64), so such an interval selects synchronized
      saving. */
  lemma {:induction false} HugeIntervalWrapsToZero(k: int)
    requires -256 <= k < 256
    ensures Seconds(k * 0x80_0000_0000_0000) == 0
  {
    var si := k * 0x80_0000_0000_0000;
    assert si * Second == (k * 1_953_125) * TwoTo64;
    ModShift(TwoTo63, k * 1_953_125);
  }

  /** Every negative interval whose nanosecond count does not wrap panics. */
  lemma NegativeIntervalPanics(si: Int64)
    requires -9_223_372_036 <= si < 0
    ensures Seconds(si) < 0
  {
  }
}
