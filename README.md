# metrics-collector, modelled in Dafny

This project models the core of metrics-collector, a Go service in two parts:

- An **agent** polls runtime statistics into a fixed table of gauge and counter metrics.
- A **server** stores the metrics it receives in memory and persists them to a file.

## Server side

The metric store (`MemoryStorage`) and its persistence mode (`FileSaver`):

- A gauge name maps to an opaque float64. A counter name maps to an int64 that wraps on overflow.
- `Save` validates the metric, then overwrites a gauge or adds to a counter. In synchronized mode it then writes a sorted JSON snapshot of the store.
- `Get` reads one metric back and `GetAll` reads the whole store.
- On restore, the lines of a snapshot file replace stored values.
- `RunFileSaver` saves once per tick and once more on cancellation.

The pointer-valued metric (`PcStats`): its construction and validation, gauge updates and counter increments written through its pointers, its accessors, and its sorted text and JSON rendering (`PcStatsSorting`).

The earlier rewrites that are still in the tree:

- a string-valued store (`StringStorage`), which does counter arithmetic by parse, add and format;
- a numeric store (`NumericStorage`) whose zero value has nil maps;
- a string-valued metric (`StringMetric`) and its bridge to a pointer-valued JSON record (`MetricConnector`).

## Agent side

`Collector` does three things:

- It builds one zeroed metric per template.
- On every collection it increments each counter, copies the runtime sample into the gauges, and draws `RandomValue` until the draw is non-zero.
- It runs as a loop over `Tick | Cancel` events.

The runtime sample and the normal random draws are inputs.

## Shared rules

- **Configuration.** Four configuration packages merge parameter sources in order with the same rule (`ParamMerge`): a field takes the last value a source offers that is accepted.
- **HTTP server.** IP and port validation, and the order in which `Init` checks them.
- **Content encoding.** How `Accept-Encoding` selects a compressor; how `Content-Encoding` selects a decompressor, with the 415 response when none fits. The codecs themselves are parameters. The doc comment of ServerDecompressor (internal/datacompressor/decompressor.go:14-16) names 400 Bad Request for an unsupported encoding, but the code answers 415 Unsupported Media Type; the model follows the code.
- **Locks.** The order in which the stores take their `sync.RWMutex` is modelled as a trace of lock operations (`StoreLocks`). This shows two locking defects of the source (see Findings). The store classes model the corrected, deadlock-free behaviour.

## Go semantics in the model

Library behaviour is modelled in `GoLib` and `GoSort`:

- int64 wrap-around;
- `time.Duration` of a whole number of seconds;
- `strconv.ParseInt`, `FormatInt` and `ParseUint`, in base 10, with the text of the `*strconv.NumError` a failed parse returns (`strconv.Quote` of the input, and the syntax or range reason);
- Go's byte-wise string order;
- `strings.Split` and `strings.Join`;
- line scanning with `bufio.Scanner`, including its 64 KiB token limit, past which the scan stops without an error that the loaders would see;
- tick/cancel event sequences;
- `sort.Sort` as a method that sorts an array in place into a permutation.

Calls into code that is not shown become parameters:

- float parsing and formatting (`FloatCodec`);
- JSON marshal and unmarshal;
- `net.ParseIP`;
- the netparamsvalidator checks;
- gzip and deflate;
- `time.Duration.String`.

## Model

| member | source | states |
|---|---|---|
| ParamMerge.LatestByNone | internal/serverconfig/server-config.go:59-87 | a merged field keeps its old value exactly when no source offers a value its field's acceptance rule admits |
| ParamMerge.LatestByIsLast | internal/serverconfig/server-config.go:59-87 | the merged value is the one from the last source whose value is accepted; later sources override earlier ones |
| ParamMerge.LatestByAccepted | internal/agentconfig/agent-config.go:48-70 | whatever value the merge takes, some source offered it and the field's acceptance rule admitted it |
| ParamMerge.LatestByConcat | internal/agentconfig/agent-config.go:47-70 | merging xs + ys is merging ys over the result of xs: ys wins wherever it offers an accepted value |
| ParamMerge.MergeTwice | internal/server-config/server-config.go:46-59 | two UpdateConfig calls in a row end in the same field value as one call over the concatenated sources |
| ServerConfig.MergePanics | internal/serverconfig/server-config.go:72-75 | the merge panics exactly when some source gives a store interval that is applied and is negative once converted to nanoseconds (the NewTicker panic reached through SetStoreInterval) |
| ServerConfig.MergeAddressPort | internal/serverconfig/server-config.go:60-70 | the address and port are the latest values the IP and port validators accept, else the starting values |
| ServerConfig.MergeInterval | internal/serverconfig/server-config.go:72-75 | the store interval is the latest one that is not the 123456789 sentinel, converted to seconds, with the FileSaver mode consistent with it; with no such source it is left as it was |
| ServerConfig.MergePathRestore | internal/serverconfig/server-config.go:77-85 | the file path is the latest non-empty one; the restore flag is the latest non-nil flag |
| ServerConfig.MergeFields | internal/serverconfig/server-config.go:59-87 | all five fields after a merge that does not panic, each as its own latest-accepted rule says |
| ServerConfig.MergeKeepsParity | internal/serverconfig/server-config.go:89-95 | the store interval stays a whole number of seconds in nanoseconds, so it can never equal the 123456789 ns that the final test compares it with |
| ServerConfig.MergePrefixPanics | internal/serverconfig/server-config.go:59-87 | once a source has panicked, the sources after it change nothing |
| ServerConfig.ApplySettings | internal/serverconfig/server-config.go:72-85 | one source's FileSaver part: it panics exactly when the pure rule does, and otherwise leaves the FileSaver as the rule says |
| ServerConfig.Config.constructor | internal/serverconfig/server-config.go:38-42 | empty address and port; a FileSaver of 300 s, "./tmp/metrics-db.json", restore on, nil ticker, ticker mode |
| ServerConfig.Config.ApplyOne | internal/serverconfig/server-config.go:59-86 | one pass of the loop: address, port and FileSaver as the pure rule says, or a panic |
| ServerConfig.Config.UpdateConfig | internal/serverconfig/server-config.go:58-99 | it panics iff a source gives a negative applied interval; otherwise the fields are merged; the result is nil iff address, port and a non-sentinel interval are set, and when the interval starts as whole seconds (as NewConfig's 300 s does) that is iff address and port are non-empty; the error text names address and port |
| ServerConfig.NewConfig | internal/serverconfig/server-config.go:37-53 | the defaults, merged with the command-line source and then the environment source; it returns exactly when neither source panics and the merged address and port are non-empty; the getters give the merged values |
| ServerConfig.DefaultIntervalHasNoTicker | internal/serverconfig/server-config.go:41 | when neither source gives a store interval, SetStoreInterval is never called, so NewFileSaver's nil ticker remains |
| AgentConfig.InvalidIsSentinelSeconds | internal/agentconfig/agent-config.go:12 | the sentinel is 123456789 seconds, in nanoseconds |
| AgentConfig.ZeroIsGiven | internal/agentconfig/agent-config.go:49-52 | an interval of zero seconds is accepted like any other |
| AgentConfig.SentinelAlias | internal/agentconfig/agent-config.go:49-52 | a source interval of 123456789 + 2^55 seconds also counts as "not given", because the duration wraps around to the sentinel |
| AgentConfig.Config.constructor | internal/agentconfig/agent-config.go:29-34 | empty address and port, a 2 s poll interval and a 10 s report interval |
| AgentConfig.Config.UpdateConfig | internal/agentconfig/agent-config.go:47-83 | each field takes its latest accepted value (validators for address and port, not-the-sentinel for the intervals); the result is nil iff address and port are non-empty and neither interval is the sentinel; the error text names all four values |
| AgentConfig.MergedIntervalGiven | internal/agentconfig/agent-config.go:72-82 | an interval that did not start as the sentinel never becomes the sentinel through a merge |
| AgentConfig.NewConfig | internal/agentconfig/agent-config.go:28-45 | the defaults merged with the command-line then the environment source; it panics, with UpdateConfig's text, exactly when the merged address or port is empty |
| LegacyAgentConfig.Config.constructor | internal/agent-config/agent-config.go:33-40 | empty address and port, 2 s and 10 s intervals, and the collector and logger given |
| LegacyAgentConfig.Config.UpdateConfig | internal/agent-config/agent-config.go:53-89 | the same merge, where the sentinel is a Duration of 123456789 ns; the result is nil iff address and port are non-empty and neither interval is the sentinel |
| LegacyAgentConfig.MergedIntervalGiven | internal/agent-config/agent-config.go:78-88 | an interval that did not start as the sentinel never becomes the sentinel through a merge |
| LegacyAgentConfig.NewConfig | internal/agent-config/agent-config.go:32-51 | the defaults then both sources; it panics exactly when address or port is empty; it keeps the collector and the logger |
| LegacyServerConfig.Config.constructor | internal/server-config/server-config.go:29-33 | empty address and port, with the storage and logger given |
| LegacyServerConfig.Config.UpdateConfig | internal/server-config/server-config.go:46-69 | address and port are the latest validated values; the result is nil iff both are non-empty, and otherwise it is the "params problem" error naming both |
| LegacyServerConfig.NewConfig | internal/server-config/server-config.go:28-44 | it panics with UpdateConfig's text exactly when the merged address or port is empty; it keeps the storage and the logger |
| HTTPServerInit.IsValidIP | internal/http-server/http-server.go:54-61 | nil exactly when net.ParseIP accepts the text or it is "localhost"; otherwise "IP address is not valid" |
| HTTPServerInit.IsValidPort | internal/http-server/http-server.go:63-74 | nil exactly when the text parses as a base-10 uint64 no greater than 65535; otherwise "invalid port number" |
| HTTPServerInit.IsValidPortDigits | internal/http-server/http-server.go:63-74 | the accepted ports are exactly the non-empty strings of decimal digits whose value is at most 65535 (leading zeros allowed) |
| HTTPServerInit.PortNumbersAccepted | internal/http-server/http-server.go:63-74 | the decimal text of a number is accepted exactly when the number is at most 65535 |
| HTTPServerInit.SignedPortRejected | internal/http-server/http-server.go:64-67 | a port with a leading sign is rejected, as ParseUint refuses signs |
| HTTPServerInit.HTTPServer.constructor | internal/http-server/http-server.go:21 | the zero HTTPServer: empty address and port, no router, no storage |
| HTTPServerInit.HTTPServer.Init | internal/http-server/http-server.go:21-39 | the address is checked before the port, and the first failure is returned with the server unchanged; on success address, port and storage are recorded and a fresh router installed |
| HTTPHeader.Get | internal/httpserver/tools.go:12 | a header lookup gives the value, or "" for an absent key |
| HTTPHeader.Header.Set | internal/httpserver/tools.go:28 | only the given key changes, to the given value |
| HTTPHeader.Header.SetAll | internal/datacompressor/compressor.go:95-97 | every entry of the header set is written over the response headers; the other keys are kept |
| HTTPServerTools.Compression | internal/httpserver/tools.go:11-43 | an empty Accept-Encoding gives the data unchanged and no Content-Encoding; only the first comma-separated token, untrimmed, decides; "gzip" or "deflate" deliver the codec's output and that Content-Encoding when the codec succeeds; any other token, or a codec failure, gives the data unchanged and no header |
| HTTPServerTools.Compressor | internal/httpserver/tools.go:11-43 | the method returns Compression's data and changes the response headers only by setting Content-Encoding when Compression chose one |
| HTTPServerTools.OnlyFirstToken | internal/httpserver/tools.go:18-41 | whatever follows the first comma does not change the result |
| HTTPServerTools.SpaceDefeatsGzip | internal/httpserver/tools.go:18-22 | " gzip" with its leading space is not recognised, because tokens are not trimmed: the data goes out unchanged with no header |
| DataCompressor.FirstSupported | internal/datacompressor/compressor.go:84-114 | the scan's choice is a supported token of the list |
| DataCompressor.FirstSupportedNone | internal/datacompressor/compressor.go:84-114 | the scan finds nothing exactly when no token is "gzip" or "deflate" |
| DataCompressor.FirstSupportedAt | internal/datacompressor/compressor.go:84-114 | the choice is the first token that is exactly "gzip" or "deflate"; the unsupported tokens before it are skipped |
| DataCompressor.ContentEncodingOnlyWhenCompressed | internal/datacompressor/compressor.go:15-30 | only the gzip and deflate header sets carry a Content-Encoding, set to the codec's name; every set carries the JSON Content-Type |
| DataCompressor.ServerCompression | internal/datacompressor/compressor.go:75-120 | an empty header gives the input, uncompressed headers and nil; the first supported token picks the codec, whose success gives its output, its header set and nil, and whose failure gives the input, uncompressed headers and its error; with no supported token it gives the input, uncompressed headers and a "not supported" error naming the tokens |
| DataCompressor.ServerCompress | internal/datacompressor/compressor.go:75-120 | the loop returns exactly ServerCompression's data and error and writes its header set over the response headers |
| DataCompressor.AgreesOnSupportedFirst | internal/datacompressor/compressor.go:83-114 | when the first token is supported, the two negotiators pick the same codec and data |
| DataCompressor.ScansPastUnsupported | internal/datacompressor/compressor.go:84-114 | on "br,gzip" ServerCompress gzips, while the older tools Compressor sends the data unchanged |
| Compressing.DecompressorWrapper | internal/compressing/decompressor.go:14-32 | "" gives the input reader; "gzip" and "deflate" give the gzip and zlib reader constructors' results, errors included; any other name gives the "unsupported compression method: " error |
| Compressing.OnlyExactNamesDecode | internal/compressing/decompressor.go:15-31 | case and surrounding spaces matter: "GZIP" and " gzip" are unsupported, and so is "br" |
| DataDecompressor.DecompressorSwitcher | internal/datacompressor/decompressor.go:32-51 | "" gives the original body; "gzip" and "deflate" give the decoding reader when it can be built; anything else, and every construction failure, gives nil |
| DataDecompressor.SwitcherAgreesWithWrapper | internal/datacompressor/decompressor.go:32-51 | the switcher yields a reader exactly when DecompressorWrapper succeeds, and the same reader |
| DataDecompressor.Request.constructor | internal/datacompressor/decompressor.go:17 | a request with the given headers and body |
| DataDecompressor.ServerDecompressor | internal/datacompressor/decompressor.go:17-27 | with no reader it responds 415 and never calls next, leaving the body; otherwise it replaces the body with the reader and calls next exactly once, returning next's error |
| FileSaver.WithStoreInterval | internal/storage/filesaver/filesaver.go:30-39 | it panics exactly when si seconds is negative; otherwise the interval is si seconds, the mode follows it (interval 0 iff synchronized iff nil ticker) and path and restore are kept |
| FileSaver.FileSaver.constructor | internal/storage/filesaver/filesaver.go:18-26 | StoreInterval is si seconds, with a nil ticker and ticker mode, whatever si is |
| FileSaver.FileSaver.SetStoreInterval | internal/storage/filesaver/filesaver.go:30-39 | the interval is always assigned; a negative duration panics in NewTicker with mode and ticker unchanged; otherwise 0 selects synchronized mode with a nil ticker, and any other value selects ticker mode with a ticker of that period |
| FileSaver.FileSaver.SetFilePath | internal/storage/filesaver/filesaver.go:42-44 | only the file path changes |
| FileSaver.FileSaver.SetRestore | internal/storage/filesaver/filesaver.go:47-49 | only the restore flag changes |
| FileSaver.FileSaver.GetRestore | internal/storage/filesaver/filesaver.go:79-81 | the restore flag |
| FileSaver.FileSaver.GetFilePath | internal/storage/filesaver/filesaver.go:84-86 | the file path |
| FileSaver.FileSaver.GetSynchronizedFlag | internal/storage/filesaver/filesaver.go:89-91 | in a consistent FileSaver, synchronized iff the interval is 0 |
| FileSaver.FileSaver.GetTicker | internal/storage/filesaver/filesaver.go:94-96 | in a consistent FileSaver, the ticker is nil iff synchronized, and otherwise runs at the store interval |
| FileSaver.PathAndRestoreKeepMode | internal/storage/filesaver/filesaver.go:42-49 | setting path or restore preserves mode consistency |
| FileSaver.HugeIntervalWrapsToZero | internal/storage/filesaver/filesaver.go:31 | an interval that is a multiple of 2^55 seconds wraps to a zero duration and so selects synchronized mode |
| FileSaver.NegativeIntervalPanics | internal/storage/filesaver/filesaver.go:33 | every negative interval in the range that does not wrap is negative in nanoseconds, so NewTicker panics on it |
| PcStats.CheckMetricName | internal/pcstats/metric.go:197-203 | nil exactly for a non-empty name |
| PcStats.CheckMetricType | internal/pcstats/metric.go:205-215 | nil exactly for "gauge" or "counter" |
| PcStats.CheckMetricValueGauge | internal/pcstats/metric.go:217-224 | nil exactly for a non-nil pointer |
| PcStats.CheckMetricValueCounter | internal/pcstats/metric.go:226-233 | nil exactly for a non-nil pointer |
| PcStats.NewMetric | internal/pcstats/metric.go:25-66 | it fails on an empty name, an unknown type or a nil pointer for the chosen type; on success ID and type are as given, the matching pointer is the one passed and the other pointer is nil |
| PcStats.StoI64 | internal/pcstats/metric.go:248-258 | a fresh int64 holding the parsed value, or an error exactly when base-10 int64 parsing fails; the error text is strconv's NumError for ParseInt, `strconv.ParseInt: parsing "x": invalid syntax` with the input quoted, or `value out of range` |
| PcStats.StoF64 | internal/pcstats/metric.go:235-245 | a fresh float64 holding the parsed value, or an error exactly when parsing fails; the error text is strconv's NumError for ParseFloat, the input quoted, with the syntax or range reason the codec gives |
| PcStats.NewMetricFromString | internal/pcstats/metric.go:68-119 | it succeeds exactly for a non-empty name and a value that parses for the type; a counter holds the parsed int64 in a fresh Delta with a nil Value, and a gauge the reverse; a value that does not parse fails with that parse's NumError text |
| PcStats.UpdateGauge | internal/pcstats/metric.go:122-131 | it errors on a counter-typed metric or a nil Value; otherwise it replaces \*Value; nothing else is written |
| PcStats.IncrementCounter | internal/pcstats/metric.go:134-143 | it errors on a gauge-typed metric or a nil Delta; otherwise it adds the argument to \*Delta with int64 wrap-around |
| PcStats.GetGauge | internal/pcstats/metric.go:154-160 | Value, with no error, exactly when the type is gauge (possibly a nil pointer) |
| PcStats.GetCounter | internal/pcstats/metric.go:163-169 | Delta, with no error, exactly when the type is counter (possibly a nil pointer) |
| PcStats.GetStringValue | internal/pcstats/metric.go:171-194 | a string exactly for a gauge or a counter: the gauge's shortest `'f'` float text, the counter's decimal FormatInt text; any other type gets "unhandled error" |
| PcStats.CounterTextParses | internal/pcstats/metric.go:182-190 | a counter's text parses back to its Delta |
| PcStats.CounterTextRoundTrip | internal/pcstats/metric.go:97-114 | canonical decimal counter text, stored by NewMetricFromString, prints back identically |
| PcStatsSorting.LessIsTypeThenName | internal/pcstats/sorting.go:9-16 | Less compares the type first and breaks ties by ID |
| PcStatsSorting.KeyLessIrreflexive | internal/pcstats/sorting.go:9-16 | no metric sorts before itself |
| PcStatsSorting.KeyLessTransitive | internal/pcstats/sorting.go:9-16 | the order is transitive |
| PcStatsSorting.KeyLessTotal | internal/pcstats/sorting.go:9-16 | two different (type, ID) keys are always ordered one way |
| PcStatsSorting.KeyLessSplit | internal/pcstats/sorting.go:9-16 | the key order is the lexicographic order of (type, ID) |
| PcStatsSorting.KeyLessIsStrictWeakOrder | internal/pcstats/sorting.go:9-16 | Less is a strict weak order, as sort.Sort requires |
| PcStatsSorting.CountersBeforeGauges | internal/pcstats/sorting.go:10-14 | because "counter" < "gauge", every counter sorts before every gauge |
| PcStatsSorting.SortedCountersFirst | internal/pcstats/sorting.go:10-14 | in a sorted slice no gauge comes before a counter |
| PcStatsSorting.TextAppend | internal/pcstats/metric.go:268-275 | the text of a concatenation is the concatenation of the texts |
| PcStatsSorting.TextLineShape | internal/pcstats/metric.go:268-275 | a gauge or counter renders as "ID: value\n"; any other type is skipped |
| PcStatsSorting.JSONTextAppend | internal/pcstats/metric.go:285-292 | the JSON output of a concatenation is the concatenation of the outputs |
| PcStatsSorting.RenderablePermutation | internal/pcstats/metric.go:266 | sorting does not change which metrics can be rendered |
| PcStatsSorting.MetricSliceToString | internal/pcstats/metric.go:263-278 | the slice is sorted in place by (type, ID) into a permutation of itself, and the output is one "ID: value\n" line per gauge or counter in that order |
| PcStatsSorting.TextOfSlice | internal/pcstats/metric.go:268-275 | the rendering loop produces the text of the slice as it stands |
| PcStatsSorting.MetricSliceToJSON | internal/pcstats/metric.go:280-295 | the slice is sorted in place into a permutation, and the output is each marshalled metric followed by '\n', skipping those that fail to marshal |
| PcStatsSorting.JSONOfSlice | internal/pcstats/metric.go:285-292 | the marshalling loop produces the JSON lines of the slice as it stands |
| GoSort.Swap | internal/pcstats/sorting.go:18-20 | elements i and j trade places and every other position is unchanged, so the multiset is preserved |
| GoSort.Sort | internal/pcstats/metric.go:266 | under a strict weak order the array ends sorted, as a permutation of what it held |
| GoLib.Wrap | internal/storage/memorystorage/memorystorage.go:68 | int64 wrap-around: congruent modulo 2^64, and the identity on int64 values |
| GoLib.WrapAddWrap | internal/storage/memorystorage/memorystorage.go:68 | wrapping once at the end is the same as wrapping after every addition |
| GoLib.WrapDifferent | internal/collector/collector.go:91 | incrementing an int64 by one always changes it, even at the maximum |
| GoLib.SecondsIsEven | internal/serverconfig/server-config.go:91 | a whole number of seconds, in wrapped nanoseconds, is even |
| GoLib.FormatNat | internal/storage/memstorage/memstorage.go:152 | decimal text: non-empty, all digits, no leading zero |
| GoLib.FormatNatValue | internal/storage/memstorage/memstorage.go:152 | the decimal text of n has value n |
| GoLib.ParseUintFormatNat | internal/http-server/http-server.go:64 | ParseUint reads back the decimal text of any uint64 |
| GoLib.ParseFormatInt | internal/pcstats/metric.go:248-258 | ParseInt(FormatInt(n)) == n for every int64 |
| GoLib.FormatDigitsValue | internal/pcstats/metric.go:182-190 | canonical digit strings are the decimal text of their value |
| GoLib.FormatParseInt | internal/metric/metricconnector.go:56-63 | FormatInt(ParseInt(s)) == s for canonical decimal text |
| GoLib.UintScanValue | internal/pcstats/metric.go:248-252 | ParseUint's digit loop accepts exactly the all-digit text whose value fits in 64 bits, yields that value, and never reports a syntax error on all-digit text |
| GoLib.ParseIntScanAgrees | internal/metric/metric.go:104-111 | strconv's step-by-step ParseInt, with its syntax and range failures, succeeds exactly when ParseInt does, with the same value |
| GoLib.ParseIntRangeFailure | internal/metric/metric.go:73-79 | a sign and digits that ParseInt still rejects fail as out of range, not as malformed |
| GoLib.ParseIntSyntaxFailure | internal/metric/metric.go:104-111 | text with no digits after the sign, or a non-digit reached while the value still fits in 64 bits, fails as malformed |
| GoLib.QuotePlain | internal/metric/metric.go:104-111 | the error quotes printable ASCII input without a quote or backslash verbatim between double quotes |
| GoLib.ParseIntError | internal/metric/metric.go:104-111 | a failed ParseInt's error text is `strconv.ParseInt: parsing ` + the quoted input + `: ` + the reason the step-by-step parse gives |
| GoLib.StrLessIrreflexive | internal/pcstats/sorting.go:10-15 | Go's string order is irreflexive |
| GoLib.StrLessAsymmetric | internal/pcstats/sorting.go:10-15 | Go's string order is asymmetric |
| GoLib.StrLessTransitive | internal/pcstats/sorting.go:10-15 | Go's string order is transitive |
| GoLib.StrLessTotal | internal/pcstats/sorting.go:10-15 | Go's string order is total on distinct strings |
| GoLib.Split | internal/httpserver/tools.go:18 | strings.Split always yields at least one piece |
| GoLib.SplitJoin | internal/datacompressor/compressor.go:83 | joining the pieces with the separator restores the text, and no piece contains the separator |
| GoLib.SplitFirst | internal/httpserver/tools.go:18 | the first piece is the text up to the first separator |
| GoLib.SplitAppend | internal/httpserver/tools.go:18 | splitting a + sep + b is splitting a, then b |
| GoLib.SplitNoSeparator | internal/httpserver/tools.go:18 | text without the separator is a single piece |
| GoLib.SplitTerminated | internal/storage/memorystorage/memorystorage.go:252-281 | newline-terminated lines split back into those lines |
| GoLib.ScanTerminated | internal/storage/memorystorage/memorystorage.go:252-281 | the scanner reads back exactly the lines of newline-terminated data, when each line has no carriage return at its end and is shorter than the 64 KiB token limit |
| GoLib.ScanStopsAtLongLine | internal/storage/memorystorage/memorystorage.go:250-252 | a line of 64 KiB or more ends the scan there: only the lines before it are read, and no error is reported |
| GoLib.HandledFirstCancel | internal/storage/memorystorage/memorystorage.go:289-316 | the saver handles the events up to and including the first Cancel, or all of them |
| GoLib.TicksBeforeCancel | internal/collector/collector.go:126-138 | no more ticks are collected than there are events |
| GoLib.TicksFirstCancel | internal/collector/collector.go:126-138 | the collections are the ticks before the first Cancel |
| MemoryStorage.CheckName | internal/storage/memorystorage/memorystorage.go:165-170 | nil exactly for a non-empty name |
| MemoryStorage.CheckType | internal/storage/memorystorage/memorystorage.go:173-182 | nil exactly for "gauge" or "counter" |
| MemoryStorage.CheckValueGauge | internal/storage/memorystorage/memorystorage.go:185-191 | nil exactly for a non-nil pointer |
| MemoryStorage.CheckValueCounter | internal/storage/memorystorage/memorystorage.go:194-200 | nil exactly for a non-nil pointer |
| MemoryStorage.CheckMetric | internal/storage/memorystorage/memorystorage.go:203-232 | nil exactly for a non-empty name with type gauge and a non-nil Value, or type counter and a non-nil Delta; the other pointer is ignored |
| MemoryStorage.SavedGauge | internal/storage/memorystorage/memorystorage.go:55-61 | saving a gauge sets that name only, and leaves the counters unchanged |
| MemoryStorage.SavedCounterTwice | internal/storage/memorystorage/memorystorage.go:62-68 | saving the same counter delta twice onto an absent name reads back twice the delta (40 twice gives 80) |
| MemoryStorage.SavedCounterSum | internal/storage/memorystorage/memorystorage.go:62-68 | a series of counter saves gives the old value (0 if absent) plus the sum of the deltas, wrapped to int64; gauges are untouched |
| MemoryStorage.RestoreIsOverride | internal/storage/memorystorage/memorystorage.go:252-281 | restoring is overriding the maps with the file's maps; a counter line replaces the value rather than adding to it, and the last line for a name wins |
| MemoryStorage.RestoreIdempotent | internal/storage/memorystorage/memorystorage.go:236-286 | restoring the same file twice is restoring it once |
| MemoryStorage.RestoreNilGaugePanics | internal/storage/memorystorage/memorystorage.go:262-268 | a gauge record without a value dereferences nil in the code as written, while the corrected restore skips it |
| MemoryStorage.RestoreAsWrittenAgrees | internal/storage/memorystorage/memorystorage.go:252-281 | on files without such records, the code as written and the corrected restore agree |
| MemoryStorage.StrictlySortedUnique | internal/pcstats/metric.go:266 | two strictly sorted sequences with the same elements are equal |
| MemoryStorage.DumpUnique | internal/storage/memorystorage/memorystorage.go:75-76 | the sorted dump of a store is unique |
| MemoryStorage.DumpRestores | internal/storage/memorystorage/memorystorage.go:236-286 | restoring a dump written with a lossless marshaller into an empty store brings back every non-empty-named entry |
| MemoryStorage.DumpDataUnique | internal/storage/memorystorage/memorystorage.go:75-77 | the bytes a save writes are determined by the store's contents |
| MemoryStorage.DumpDataRestores | internal/storage/memorystorage/memorystorage.go:236-286 | the saved bytes read back, through the scanner, into the same gauges and counters, when every record's JSON line is shorter than the scanner's 64 KiB limit |
| MemoryStorage.LongLineEndsRestore | internal/storage/memorystorage/memorystorage.go:250-252 | a file line of 64 KiB or more silently ends the restore: the store gets only the records of the lines before it, because the loader never asks the scanner for its error |
| MemoryStorage.ListsStoreIsListing | internal/storage/memorystorage/memorystorage.go:126-159 | GetAll's result views as a listing of the store: one metric per entry, each carrying its stored value |
| MemoryStorage.SortedListingIsDump | internal/pcstats/metric.go:280-295 | sorting GetAll's result gives the sorted dump of the store |
| MemoryStorage.SortedJSON | internal/pcstats/metric.go:280-295 | MetricSliceToJSON on GetAll's slice: a sorted permutation and its JSON lines |
| MemoryStorage.ListingJSON | internal/storage/memorystorage/memorystorage.go:75-76 | the JSON of any listing of the store is the store's dump data |
| MemoryStorage.MemoryStorage.constructor | internal/storage/memorystorage/memorystorage.go:27-40 | an empty store with the given FileSaver, then restored from the file when the restore flag is set |
| MemoryStorage.MemoryStorage.LoadStorageFromFile | internal/storage/memorystorage/memorystorage.go:236-286 | only with the restore flag set and the file readable, the maps become the restore of the file's lines; otherwise nothing changes |
| MemoryStorage.MemoryStorage.Save | internal/storage/memorystorage/memorystorage.go:44-86 | the error is checkMetric's; a rejected metric leaves both maps unchanged; a valid one is overwritten (gauge) or added (counter); in synchronized mode exactly one snapshot of the new contents is written, and the write's outcome does not change the nil result |
| MemoryStorage.MemoryStorage.Get | internal/storage/memorystorage/memorystorage.go:89-123 | fails on an empty name ("ivalid metric name: "), an unknown type or an absent key; otherwise a metric of that type and name whose matching pointer is a freshly allocated cell holding the stored value and whose other pointer is nil |
| MemoryStorage.MemoryStorage.GaugeMetrics | internal/storage/memorystorage/memorystorage.go:131-143 | one fresh gauge metric per gauge entry, carrying the stored value |
| MemoryStorage.MemoryStorage.CounterMetrics | internal/storage/memorystorage/memorystorage.go:145-156 | one fresh counter metric per counter entry, carrying the stored value |
| MemoryStorage.MemoryStorage.GetAll | internal/storage/memorystorage/memorystorage.go:126-159 | exactly one metric per map entry, each with the stored value, gauges first and then counters |
| MemoryStorage.MemoryStorage.SaveToFile | internal/storage/memorystorage/memorystorage.go:294-296 | one write of the JSON of the sorted store, with the store unchanged |
| MemoryStorage.MemoryStorage.RunFileSaver | internal/storage/memorystorage/memorystorage.go:289-316 | in synchronized mode it returns at once; with a nil ticker it panics; in ticker mode every tick up to the first Cancel, and that Cancel, write one snapshot each |
| StringStorage.AfterUpdate | internal/storage/memstorage/memstorage.go:130-153 | a gauge stores the value text verbatim; a counter parses the stored text (missing or unparsable counts as 0), adds the increment with wrap-around and stores canonical decimal text; an unparsable increment or another type changes nothing |
| StringStorage.FormatIntCanonical | internal/storage/memstorage/memstorage.go:152 | FormatInt's text is canonical decimal |
| StringStorage.CounterAccumulates | internal/storage/memstorage/memstorage.go:141-152 | a stored counter plus an increment parses back to the wrapped sum |
| StringStorage.CounterFortyTwice | internal/storage/memstorage/memstorage.go:138-153 | two updates of "40" read back "80" |
| StringStorage.StrLessIsStrictWeakOrder | internal/storage/memstorage/memstorage.go:55-78 | name order is a strict weak order, as sort.Strings needs |
| StringStorage.SortedKeys | internal/storage/memstorage/memstorage.go:59-68 | the names of a map, each once, in strictly increasing order |
| StringStorage.SortedNamesUnique | internal/storage/memstorage/memstorage.go:59-68 | the sorted name list of a set is unique |
| StringStorage.ListLines | internal/storage/memstorage/memstorage.go:69-77 | "name: value\n" for each entry in sorted name order |
| StringStorage.ListingUnique | internal/storage/memstorage/memstorage.go:55-78 | the listing of a store is determined by its contents |
| StringStorage.LineEntryAcceptable | internal/storage/memstorage/memstorage.go:222-245 | every line restore takes has the name, type and value its record carries, and would be accepted by NewMetric |
| StringStorage.RestoreIsOverride | internal/storage/memstorage/memstorage.go:222-247 | restoring overrides the maps with the file's; counters are replaced, not added to |
| StringStorage.RestoreIdempotent | internal/storage/memstorage/memstorage.go:211-252 | restoring the same file twice is restoring it once |
| StringStorage.InMemoryStorage.constructor | internal/storage/memstorage/memstorage.go:26-36 | an empty store with the given FileSaver, restored from the file when the flag is set |
| StringStorage.InMemoryStorage.LoadStorageFromFile | internal/storage/memstorage/memstorage.go:211-252 | only with the restore flag set and the file readable, the maps become the restore of the file's lines |
| StringStorage.LongLineEndsRestore | internal/storage/memstorage/memstorage.go:220-222 | a file line of 64 KiB or more silently ends the restore: the store gets only the records of the lines before it, because the loader never asks the scanner for its error |
| StringStorage.InMemoryStorage.ReadMetricValue | internal/storage/memstorage/memstorage.go:38-53 | the stored text for a present key; otherwise "" and the "invalid metric type" error, also for an absent key |
| StringStorage.InMemoryStorage.ReadAllMetrics | internal/storage/memstorage/memstorage.go:55-78 | gauges sorted by name, then counters sorted by name, each as "name: value\n" |
| StringStorage.InMemoryStorage.ReadEntireMetric | internal/storage/memstorage/memstorage.go:164-189 | a fresh Metric built from the stored text for a present key with acceptable text; "metric … not found" for an absent key, "invalid metric type" for another type |
| StringStorage.InMemoryStorage.JSONHalf | internal/storage/memstorage/memstorage.go:83-123 | one half of the JSON dump: each entry of one map bridged to a JSON record, in the map's iteration order |
| StringStorage.InMemoryStorage.ReadAllMetricsJSON | internal/storage/memstorage/memstorage.go:80-126 | a JSON dump of the contents: the gauge records, then the counter records |
| StringStorage.InMemoryStorage.UpdateMetric | internal/storage/memstorage/memstorage.go:128-162 | the maps change as AfterUpdate says; in synchronized mode exactly one JSON dump of the new contents is written |
| StringStorage.InMemoryStorage.SetFileSaver | internal/storage/memstorage/memstorage.go:191-193 | only the FileSaver changes |
| StringStorage.InMemoryStorage.RunFileSaver | internal/storage/memstorage/memstorage.go:196-207 | in synchronized mode it returns at once; with a nil ticker it panics; otherwise each tick writes one dump and the loop never returns |
| NumericStorage.CheckGaugeValue | internal/storages/memstorage/memstorage.go:68-75 | the parsed float64, or an error exactly when parsing fails, carrying ParseFloat's NumError text |
| NumericStorage.CheckCounterValue | internal/storages/memstorage/memstorage.go:78-85 | the parsed int64, or an error exactly when parsing fails, carrying ParseInt's NumError text |
| NumericStorage.SetGauge | internal/storages/memstorage/memstorage.go:33 | only the named gauge changes |
| NumericStorage.AddCount | internal/storages/memstorage/memstorage.go:52-56 | the named counter becomes old + v (wrapped), or v when absent; nothing else changes |
| NumericStorage.GaugeUpdate | internal/storages/memstorage/memstorage.go:20-37 | an empty name ("invalid gauge metric name") or an unparsable value (ParseFloat's NumError text) is rejected with the maps unchanged; a nil map panics; otherwise the gauge is set |
| NumericStorage.CounterUpdate | internal/storages/memstorage/memstorage.go:39-60 | an empty name ("invalid counter metric name") or an unparsable value (ParseInt's NumError text) is rejected with the maps unchanged; a nil map panics; otherwise the counter is added to |
| NumericStorage.AddCountCommutes | internal/storages/memstorage/memstorage.go:51-57 | counter updates commute, so two requests serialised in either order leave the same map |
| NumericStorage.AddAllTotal | internal/storages/memstorage/memstorage.go:52-56 | from an empty map, a counter holds the wrapped total of its increments and exactly the incremented names are present |
| NumericStorage.CounterFortyTwice | internal/storages/memstorage/memstorage.go:39-60 | two updates of "40" give 80 |
| NumericStorage.InMemoryStorage.constructor | internal/storages/memstorage/memstorage.go:10-13 | the zero store, with nil maps |
| NumericStorage.InMemoryStorage.Init | internal/storages/memstorage/memstorage.go:15-18 | empty gauge and counter maps |
| NumericStorage.InMemoryStorage.UpdateGauge | internal/storages/memstorage/memstorage.go:20-37 | the gauge map and outcome as GaugeUpdate says; the counter map is untouched |
| NumericStorage.InMemoryStorage.UpdateCounter | internal/storages/memstorage/memstorage.go:39-60 | the counter map and outcome as CounterUpdate says; the gauge map is untouched |
| StringMetric.CheckGaugeValue | internal/metric/metric.go:94-101 | nil exactly when the text parses as a float64, else ParseFloat's NumError text |
| StringMetric.CheckCounterValue | internal/metric/metric.go:104-111 | nil exactly when the text parses as an int64, else ParseInt's NumError text |
| StringMetric.NewMetricError | internal/metric/metric.go:19-37 | nil exactly for a non-empty name, a known type and a value that parses for it; the name error comes first, then the type error, then the value's NumError text, unchanged |
| StringMetric.Updated | internal/metric/metric.go:59-86 | a gauge takes the new text if it parses; a counter stores old + increment (wrapped) as decimal if both parse; any other type keeps its value and succeeds; a failure is the NumError text of the increment, or else of the stored text |
| StringMetric.UpdatedStaysAcceptable | internal/metric/metric.go:59-86 | an update keeps an acceptable metric acceptable |
| StringMetric.CounterSyntaxErrorText | internal/metric/metric.go:19-31 | NewMetric of a counter "a" with value "x" fails with exactly `strconv.ParseInt: parsing "x": invalid syntax` |
| StringMetric.CounterFortyPlusForty | internal/metric/metric.go:67-83 | "40" updated by "40" is "80" |
| StringMetric.Metric.constructor | internal/metric/metric.go:39 | name, type and value stored verbatim |
| StringMetric.Metric.UpdateMetric | internal/metric/metric.go:59-86 | name and type are kept; the error is nil iff Updated succeeds, and the value is then Updated's and otherwise unchanged; a failure returns Updated's NumError text |
| StringMetric.NewMetric | internal/metric/metric.go:19-40 | the error is NewMetricError's, so a value that does not parse returns strconv's NumError text unchanged; on success GetParams returns name, type and value in that order |
| MetricConnector.MConnect | internal/metric/metricconnector.go:17-44 | ID and type are copied; a counter gets the parsed Delta and no Value, a gauge the reverse; a parse failure is an error carrying that parse's NumError text; any other type gets neither pointer and no error |
| MetricConnector.AcceptableConnects | internal/metric/metricconnector.go:17-44 | every metric NewMetric accepts connects |
| MetricConnector.MDisConnectNilDelta | internal/metric/metricconnector.go:58 | as written, a counter record without Delta (or a gauge without Value) dereferences nil |
| MetricConnector.DisConnected | internal/metric/metricconnector.go:47-79 | it fails on an empty ID, an unknown type, or (corrected) a missing pointer; it succeeds with ID and type copied, a counter's text parses back to Delta, and the result is NewMetric-acceptable |
| MetricConnector.MDisConnectAgrees | internal/metric/metricconnector.go:47-79 | where the pointers are present, the code as written and the corrected version agree |
| MetricConnector.MDisConnect | internal/metric/metricconnector.go:47-79 | a fresh Metric with DisConnected's parameters, or an error exactly when DisConnected fails |
| MetricConnector.CounterRoundTrip | internal/metric/metricconnector.go:24-31 | MConnect(MDisConnect(c)) has the same ID, type and Delta as c |
| MetricConnector.CounterTextRoundTrip | internal/metric/metricconnector.go:56-63 | canonical counter text survives MConnect followed by MDisConnect |
| Collector.TableKeys | internal/collector/collector.go:26-54 | the table has an entry for a name exactly when a gauge or counter template carries it |
| Collector.TableLast | internal/collector/collector.go:39-51 | the last template for a name decides its type |
| Collector.NewTableEntries | internal/collector/collector.go:26-54 | the zeroed table has one entry per gauge or counter template name, zeroed for the type of the last such template |
| Collector.CollectedTable | internal/collector/collector.go:69-108 | a collection keeps exactly the table's names |
| Collector.CollectedCounter | internal/collector/collector.go:89-95 | a collection adds exactly 1 to a counter |
| Collector.CollectedGauge | internal/collector/collector.go:73-86 | a gauge keeps its name and type and holds a value; RandomValue holds the random draw |
| Collector.CollectedChangesCounter | internal/collector/collector.go:89-95 | every collection changes every counter |
| Collector.PolledCounter | internal/collector/collector.go:89-95 | after n collections a counter has grown by n, wrapped |
| Collector.PollCountCountsPolls | internal/collector/collector.go:88-95 | a counter that starts at zero equals the number of collections |
| Collector.PolledRandomValue | internal/collector/collector.go:97-107 | after a collection, RandomValue holds the last accepted draw |
| Collector.RandomDrawsInStream | internal/collector/collector.go:98-106 | poll i (from 0) leaves as RandomValue the ((i + 1) * per)-th accepted draw of the stream, which is non-zero; zero draws are redrawn |
| Collector.Collector.constructor | internal/collector/collector.go:21-24 | an empty stats map |
| Collector.Collector.GaugeAt | internal/pcstats/metric.go:122-131 | writing a gauge through its pointer changes only that entry's view |
| Collector.Collector.IncrementAt | internal/pcstats/metric.go:134-143 | incrementing a counter through its pointer changes only that entry's view |
| Collector.Collector.Touch | internal/collector/collector.go:70-95 | the sample and counter part of one key's visit |
| Collector.Collector.SetRandom | internal/collector/collector.go:101 | RandomValue is set to the draw |
| Collector.Collector.Visit | internal/collector/collector.go:69-108 | one key's visit panics exactly when RandomValue is absent, and otherwise updates the table as the pure step says |
| Collector.Collector.Collect | internal/collector/collector.go:61-109 | entries are neither added nor removed; it panics exactly when the table is non-empty without RandomValue (the nil dereference at line 101); otherwise one non-zero draw is used per key and the table is the pure collection of the sample and the last draw |
| Collector.Collector.GetMetrics | internal/collector/collector.go:112-123 | one metric per entry, with the same names and types, each a struct copy sharing the entry's pointers |
| Collector.Collector.GetMetricsCopy | internal/collector/collector.go:112-123 | the corrected snapshot: one value copy per entry |
| Collector.Collector.Run | internal/collector/collector.go:126-138 | a non-positive interval panics in NewTicker; otherwise one collection per tick up to the first Cancel, none after it; the table equals the pure model of those collections |
| Collector.Collector.Ticks | internal/collector/collector.go:128-137 | the event loop: one Collect per tick until the first Cancel |
| Collector.NewCollector | internal/collector/collector.go:20-57 | it fails (logger.Fatal) exactly when a gauge or counter template has an empty ID; otherwise the table is the zeroed table of the templates |
| Collector.CollectAfterGetMetrics | internal/collector/collector.go:118-120 | a GetMetrics result taken before a Collect shows the values after it, as it shares the pointers |
| Collector.CollectAfterGetMetricsCopy | internal/collector/collector.go:118-120 | the corrected snapshot still shows the values from before the Collect |
| StoreLocks.Step | internal/storage/memorystorage/memorystorage.go:51-52 | one RWMutex operation keeps a writer exclusive, and a writer gets the lock only from a free mutex |
| StoreLocks.RunAppend | internal/storage/memorystorage/memorystorage.go:51-52 | running two traces in a row is running their concatenation |
| StoreLocks.BalancedFromFree | internal/storage/memorystorage/memorystorage.go:51-52 | a balanced trace from a free mutex completes and leaves the mutex free |
| StoreLocks.GetCalls | internal/storage/memorystorage/memorystorage.go:89-123 | Get's lock trace is balanced and is empty exactly for an empty name |
| StoreLocks.SaveCalls | internal/storage/memorystorage/memorystorage.go:44-86 | the corrected Save releases the write lock before it snapshots, so its trace is balanced |
| StoreLocks.SaveAsWrittenDeadlocks | internal/storage/memorystorage/memorystorage.go:51-75 | as written, a valid Save in synchronized mode blocks on GetAll's read lock while holding the write lock |
| StoreLocks.SaveAsWrittenTickerMode | internal/storage/memorystorage/memorystorage.go:44-86 | in ticker mode the code as written and the corrected Save agree and complete |
| StoreLocks.UpdateCalls | internal/storage/memstorage/memstorage.go:128-162 | the corrected UpdateMetric's trace is balanced |
| StoreLocks.UpdateAsWrittenLeavesLock | internal/storage/memstorage/memstorage.go:146-149 | as written, an unparsable counter increment leaves the write lock held, so the next lock operation blocks |
| StoreLocks.UpdateAsWrittenSynchronizedDeadlocks | internal/storage/memstorage/memstorage.go:146-157 | in synchronized mode, after that break, the save's read lock blocks at once |
| StoreLocks.Calls | internal/storage/memorystorage/memorystorage.go:44-159 | every corrected request's lock trace is balanced |
| StoreLocks.SessionNeverBlocks | internal/storage/memorystorage/memorystorage.go:44-159 | any sequence of corrected requests completes and leaves the mutex free |
| StoreLocks.AsWrittenAgrees | internal/storage/memorystorage/memorystorage.go:44-159 | away from the two defects, a request's trace as written is the corrected trace |
| StoreLocks.SessionAsWrittenAgrees | internal/storage/memorystorage/memorystorage.go:44-159 | a session avoiding the two defects runs the same as written and corrected |

## Left out

- Concurrency. Goroutines, contexts and WaitGroups are left out; the RWMutex appears only in the lock traces of StoreLocks. The schedulers process a finite list of Tick and Cancel events.
- File I/O. FileSaver.Save and Load and os.OpenFile are left out. The file is bytes already read, or else absent; how those bytes are cut into lines is GoLib.ScanLines, with the scanner's 64 KiB limit. A write's success is not observable by the store, which keeps a log of the snapshots it wrote.
- JSON. Metric.MarshalJSON, Metric.UnmarshalJSON and the MConnector JSON methods are functions passed in, and each may fail.
- Floating point. Parsing and formatting are passed in as FloatCodec, and a gauge value is an opaque bit pattern. No gauge text round-trip is stated.
- Runtime sampling and randomness. runtime.ReadMemStats and the reflective field lookup become a map from name to a float64 already converted. rand.NormFloat64 becomes a stream of draws.
- Codec bodies. GZIPCompress and DeflateCompress, and the gzip and zlib readers, are functions passed in.
- HTTP servers, handlers, routing, middleware and agents are not modelled. That includes RegisterHandler and Run in internal/http-server/http-server.go, internal/datacompressor/tools.go, and the HTTP agents.
- Command-line and environment parsing. The parsers are not modelled: each configuration receives the two sources as values.
- The netparamsvalidator checks and net.ParseIP are predicates passed in.
- time.Duration.String is a function passed in. AgentConfig and LegacyAgentConfig use it for the error text.
- Entry points (cmd/server/main.go, cmd/agent/main.go) and the interface-only files are not modelled.
- The mutex fields of the classes are left out. So are the logger calls: the Debug and Error logging has no effect on the values returned.
- PcStats.GetStringValue, PcStatsSorting.TextLine, PcStatsSorting.Text, PcStatsSorting.TextAppend, PcStatsSorting.TextLineShape, PcStatsSorting.MetricSliceToString and PcStatsSorting.TextOfSlice: they require that a gauge has a Value and a counter a Delta. Go would dereference the nil pointer and panic; the model does not represent that panic. Every slice MemoryStorage.GetAll builds meets the requirement. The gauge text comes from the FloatCodec.
- PcStatsSorting: `Metrics.Len` (internal/pcstats/sorting.go:5-7) has no member of its own, because GoSort.Sort works on the array, whose Length is the slice's length.
- GoLib.QuoteChar: characters beyond ASCII are kept verbatim. `strconv.Quote` escapes the non-ASCII runes that unicode.IsPrint rejects as `\u` or `\U`; the Unicode tables are not modelled.
- GoLib.ParseFloatError: whether rejected float text is a syntax or a range error is the codec's `outOfRange`, as the parse itself is the codec's.
- Collector.Collector.Collect: Go's map iteration order is arbitrary. The model fixes none of it; the contract holds for every order because every key draws once and only the last draw stays in RandomValue.
- MemoryStorage.MemoryStorage.GetAll and StringStorage.InMemoryStorage.ReadAllMetricsJSON: the order within each half follows map iteration, which Go randomises. Their contracts allow any order of the entries.
- StringStorage.InMemoryStorage.ReadEntireMetric: the NewMetric failure inside it ("cannot return metric") is stated through acceptability, not through its text.

## Findings

| source | as written | input that shows it | evidently intended | confidence | as-written member | corrected member |
|---|---|---|---|---|---|---|
| internal/storage/memorystorage/memorystorage.go:51-75 | Save holds the write lock on the whole body and, in synchronized mode, calls GetAll, which takes the read lock of the same RWMutex | any valid metric saved with a store interval of 0 | the snapshot is taken after the write lock is released, or without relocking | not executed | StoreLocks.SaveAsWrittenDeadlocks | StoreLocks.SaveCalls |
| internal/storage/memstorage/memstorage.go:146-149 | a counter increment that does not parse leaves the switch with `break` while the write lock is held | UpdateMetric of a counter with value "x". The callers shown never pass such text: NewMetric parses the value first, and MDisConnect writes FormatInt text. So a request does not reach the defect; it is latent | the lock is released on every path | not executed | StoreLocks.UpdateAsWrittenLeavesLock | StoreLocks.UpdateCalls |
| internal/storage/memorystorage/memorystorage.go:262-268 | restore checks the error from GetGauge/GetCounter but not the nil pointer they may return, then dereferences it | a file line whose record is a gauge with no value | records without a value are skipped like other bad lines | not executed | MemoryStorage.RestoreNilGaugePanics | MemoryStorage.MemoryStorage.LoadStorageFromFile |
| internal/metric/metricconnector.go:58 | MDisConnect dereferences Delta (and Value at line 67) without a nil check | a counter record {"id":"PollCount","type":"counter"} with no delta | a record without its value is an error | not executed | MetricConnector.MDisConnectNilDelta | MetricConnector.MDisConnect |
| internal/collector/collector.go:118-120 | GetMetrics copies each Metric struct, but the copies share the Value and Delta pointers with the collector's table | GetMetrics, then Collect, then reading the earlier result | a snapshot that later collections do not change | not executed | Collector.CollectAfterGetMetrics | Collector.Collector.GetMetricsCopy |
| internal/httpserver/tools.go:9-41 | the doc comment promises the first appropriate method of Accept-Encoding, but the switch returns the data uncompressed (`default: return data`) as soon as the first token is not gzip or deflate | Accept-Encoding "br,gzip" | the first supported token picks the codec, as the later ServerCompress does | not executed | DataCompressor.ScansPastUnsupported | DataCompressor.ServerCompression |
