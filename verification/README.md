# Verification of svgd

svgd renders RRD, `/proc` and Prometheus metrics as SVG charts; svgd-gate is the HTTP gateway in front of
it. This project models the parts of both that have to keep a promise over every input or every run, and
proves the promise:

- **The TTL cache.** The chained hash table is a heap structure (`Cache`) that refines a map from keys to
  values with expiry times (`CacheSpec`). `CacheSpec` is characterised over any sequence of calls: a get
  serves exactly the live last put. The workers that share the cache through get, miss, fetch, put, get are
  a step system (`FetchProtocol`) whose theorems hold in every interleaving.
- **The datasource registry of the gateway.** A fixed array with add, remove by shifting and set-default
  (`Registry`), its printer and its `strstr`/`strchr` reader (`RegistryFile`). The file is a JSON text
  (`RegistryJson`). What the gateway's own reader makes of a
  printed list is computed for all quote-free names and hosts: the quoted pieces a key search stops at
  (`RegistryPieces`), the walk over the braces and the sources read (`RegistryReload`); and from it the exact
  condition under which saving and loading restores the list (`RegistryRoundTrip`). Starting the gateway, when
  a restart keeps the list sound, and runs in which restarts are operations like any other are in
  `RegistryRestart`.
- **A Grafana query.** The body on its way through the parameter string (`Params`), its timestamps
  (`IsoTime`), and the answer text assembled in a growable buffer (`GrowBuffer`, `GrafanaQuery`), which a
  full parser of RFC 8259 texts (`Json`, `JsonText`, `Utf8`) reads back.
- **Request framing** in the receive loop of the gateway (`Framing`).
- **Prometheus exposition**: the line parser and the two passes over a body (`Prometheus`), and samples
  written and read back (`Exposition`).
- **Selection and arithmetic**: the step of an RRD fetch (`StepSelection`), series out of a row-major
  matrix (`Extraction`), endpoint routing (`Routing`), bounded JSON escaping (`JsonEscape`), CPU deltas
  (`CpuSampling`), chart scaling (`Chart`).

Conventions: a string is a sequence of bytes without NUL unless a module says otherwise; a pointer into a
string is the suffix it points at; doubles are exact reals and NaN is `None`; allocation succeeds; time is
an input. `dafny verify dfyconfig.toml` checks everything.

Where the code does not keep what its names or documentation suggest, the model follows the code and the
lemmas say exactly when the promise holds:

- The cache key is path and period, but the answer also depends on the metric's `sum` transform, on the
  parameter and on the metric's configuration. Caching changes no answer exactly when requests sharing a key
  agree on path, period, transform and parameter, and on the configuration too where the caller does not put
  its own back, as the chart handler does (`AgreementExactly`). A path template without `%` gives two
  parameters one key (`ParamOfAnother`); a plain and a summed metric over one file share one, too
  (`TransformOfAnother`), although their series are the same only when the file has one data source, named
  `total`, without missing values (`TransformsAgree`).
- Keys are cut at 511 bytes. All `int` periods of a path keep entries of their own exactly when the path
  has at most 499 bytes (`PeriodsKeptApart`).
- Saving and loading a list of datasources restores it exactly when each source survives (`RoundTrip`). In a
  list that is not full and has no source named `port`, these are the lists in which a source named `host`
  has the host `host`, and no `{` follows a `}` within the name and host of a source that another one follows,
  nor within a last name whose host is `name` (`RoundTripPlain`). After `a}{b`, the next source comes back
  twice (`BraceName`). The general condition also covers names `port`, and the lists in which two such faults
  cancel out.
- Starting makes a datasource of the command line when nothing was loaded, so an emptied list does not come back
  empty (`RestartExactly`, `EmptyRestart`). A restart can leave two sources of one name (`TwiceListed`) or a
  default that is not listed (`LostDefault`); `RestartSound` says exactly when it does not. Restarts are
  harmless in every run exactly when every source that may be added is safe: its name hides no key, and no
  brace in it misleads the reader (`RestartsHarmless`).
- The timestamp parser ignores whatever follows the seconds. What it returns is the instant a timestamp
  denotes exactly when the offset is zero (`ParsedInstant`); `+02:00` is taken for `Z` (`OffsetDropped`). With
  `from` before `to` as written, the query period is the time between the two instants exactly when their
  offsets are equal (`PeriodExactly`). When only `from` is not understood, as a date without a time, the
  period reaches back to 1970 instead of being the default hour (`PeriodWithoutFrom`).
- Without JSON escaping of series names, the Grafana answer is read back exactly when the names are in UTF-8
  and need no escapes, and `%g` printed every value as a JSON number (`AnswerParses`). The reader understands
  escapes and white space: that no other name can come back intact is proved, not built in.
- The escaper of `src/cfg.c` drops characters that do not fit, rather than stopping; nothing is dropped
  exactly when the escaped text is at least two bytes shorter than the buffer, or one byte without a final
  `\u` escape (`Lossless`). It works on bytes: the text is in UTF-8 exactly when the room did not run out inside
  a character (`WholeCharacters`), in particular when nothing is dropped (`RoomyWhole`).
- Chart scaling filters values before the transform and drawing filters after it; they agree on all data
  exactly when the factor is positive (`AgreeExactly`), and exactly then a scale always reaches what is drawn
  (`ReachesExactly`).

## Model

| member | source | states |
|---|---|---|
| `CacheKey.HashSlot` | src/rrd/cache.c:32-39 | wrapping the hash at 32 bits never moves a key to another slot than the unbounded DJB2 polynomial |
| `CacheKey.KeyInjective` | src/rrd/cache.c:42-44 | requests whose keys fit share an entry exactly when path and period are the same, even though paths may contain colons |
| `CacheKey.PeriodsKeptApart` | src/rrd/cache.c:15-44 | every pair of `int` periods of a path has different keys if and only if the path has at most 499 bytes |
| `CacheKey.TwoPeriodsCollide` | src/rrd/cache.c:42-44 | for any longer path, two periods that share one entry |
| `MetricValues.MetricData.Clone` | src/rrd/cache.c:47-97 | a clone has the series and the configuration of its original and its parameter (a missing one becomes the empty string), shares no memory with it, and fails exactly when a series has no name |
| `MetricValues.CopyPoints` | src/rrd/cache.c:75-81 | a copied point buffer is new memory with the same points |
| `CacheSpec.EntryIsLastPut` | src/rrd/cache.c:99-198 | after any sequence of init, get, put and free, an entry is the last put of its key since the last free, expiring by the time to live in force at that put |
| `CacheSpec.GetServesLastPut` | src/rrd/cache.c:106-132 | get hits exactly when that last put is still live and copyable, and then returns its value |
| `CacheSpec.StartedLast` | src/rrd/cache.c:99-104 | the time to live in force is that of the last init, 5 seconds if that asked for none; the cache is on exactly when nothing freed it since |
| `CacheSpec.PutFrame` | src/rrd/cache.c:134-180 | a put leaves the answer for every other request alone when the keys fit |
| `Cache.Slot.Find` | src/rrd/cache.c:144-158 | the walk down an acyclic chain finds the entry of the key, or the end and the last entry passed |
| `Cache.Slot.Replace` | src/rrd/cache.c:148-155 | overwriting an entry in place changes the value of its key only and keeps the chain, its keys and the ownership of data memory intact |
| `Cache.Slot.Append` | src/rrd/cache.c:160-177 | a new entry is linked behind the last one, or becomes the head, and adds its key only |
| `Cache.Slot.Get` | src/rrd/cache.c:113-131 | a hit is a copy in new memory, exactly when the entry is live and can be copied |
| `Cache.Slot.Free` | src/rrd/cache.c:186-193 | every entry of the chain is released once, and the slot is empty |
| `Cache.Release` | src/rrd/cache.c:186-192 | the freeing walk visits each entry of a chain exactly once |
| `Cache.NoSharing` | src/rrd/cache.c:47-97 | two entries of a chain never share data memory |
| `Cache.Table.Init` | src/rrd/cache.c:99-104 | refines the abstract init: a time to live that is not positive becomes 5 seconds |
| `Cache.Table.Get` | src/rrd/cache.c:106-132 | refines the abstract get, and what it returns shares no memory with the table |
| `Cache.Table.Put` | src/rrd/cache.c:134-180 | refines the abstract put: one key changes, the slots stay disjoint, every entry stays in the slot of its hash |
| `Cache.Table.Free` | src/rrd/cache.c:182-198 | refines the abstract free and releases every entry of the table exactly once |
| `Cache.PutInTable` | src/rrd/cache.c:134-180 | putting into one slot of 64 keeps the other slots apart and unchanged |
| `FetchProtocol.WorkersSound` | src/metric_source.c:40-59 | in every reachable state, data a worker is about to store was read for its own request, no later than now |
| `FetchProtocol.EntryStored` | src/rrd/cache.c:134-180 | in every reachable state, every entry was put by some worker's storing step, with that step's data and expiry |
| `FetchProtocol.HitIsFreshCopy` | src/metric_source.c:40-59 | in every interleaving, a hit is a copy of data some worker fetched for the same key and stored at a time p with p <= now < p + ttl |
| `FetchProtocol.CachedIsUncachedEarlier` | src/metric_source.c:40-59 | when requests sharing a key are alike, every cached answer is what the same request could have read uncached at some t, stored at a p with t <= p <= now < p + ttl |
| `FetchProtocol.AgreementExactly` | src/rrd/reader.c:202-251 | that holds on every archive, one matrix for each path, period and time, if and only if requests with the same key agree on path, period, `sum` and parameter, and on the configuration unless the caller restores its own |
| `FetchProtocol.FittingKeysAgree` | src/rrd/cache.c:42-44 | for keys that fit, only transform, parameter and configuration of requests with the same path and period are left to agree on |
| `FetchProtocol.UnlikeAnswered` | src/metric_source.c:40-59 | for any two unlike requests with one key, an archive that always gives a row of two values, and a run in which the second gets an answer it could have read at no time |
| `FetchProtocol.SharedEntry` | src/rrd/cache.c:42-44 | for any two requests with one key and any archive the first can read, a run in which the second is answered with a copy of what the first one read |
| `FetchProtocol.ParamOfAnother` | src/rrd/reader.c:207 | two parameters over one file: on any readable archive, a run in which the second request is answered under the first one's parameter, which it could have read at no time |
| `FetchProtocol.TransformOfAnother` | src/rrd/reader.c:202 | a plain and a summed metric over one file: on any readable archive, a run in which the second is answered with the series of the transform it does not have; they are its own at that time if and only if the only data source is `total` and misses no value, and at no time if the file never has just one |
| `FetchProtocol.TimeToLive` | src/rrd/cache.c:99-104 | in every reachable state the time to live is positive |
| `FetchProtocol.EntryLives` | src/rrd/cache.c:134-180 | without a free or an init, a stored key keeps an entry for at least the time to live, whatever the other workers do |
| `FetchProtocol.SecondGetAnswers` | src/metric_source.c:50-54 | the second get of a fetch answers unless the time to live has passed or the cache was freed or re-initialized |
| `FetchProtocol.AnswerGiven` | src/metric_source.c:40-59 | in every run, each answer is what the worker read itself, if it does not use the cache; else a hit, or nothing after a failed read, a cache that is off, or a second miss |
| `FetchProtocol.StepAdvances` | src/metric_source.c:40-59 | every step of a worker takes it further, so it answers after at most seven of its own; only a storing step changes the cache |
| `FetchProtocol.ClockAndFree` | src/rrd/cache.c:182-198 | right after a free nothing is stored and the cache is off; the clock moves by the ticks alone |
| `MetricSource.Fetch` | src/metric_source.c:40-59 | without the cache the answer is what was just read and the table stays as it is; a hit is a copy of the live entry and leaves the table alone; a miss stores what was read and answers with a copy of it, or with nothing exactly when the cache is off, the copy fails or the time to live passed in between; the answer shares no memory with the table |
| `MetricSource.RepeatedFetch` | src/metric_source.c:40-59 | asking again before expiry gives the same answer and leaves the same cache, whatever the archive holds by then |
| `Registry.List.Find` | gate/main.c:188-195 | the place of the first source of that name, or the end |
| `Registry.List.AddDatasource` | gate/main.c:218-241 | the return code and the new list, including which check comes first and when the default is set |
| `Registry.List.ShiftDown` | gate/main.c:246-250 | shifting in place takes out exactly one source and keeps the order of the rest |
| `Registry.List.RemoveDatasource` | gate/main.c:243-267 | the return code, the list without the source, and the default that takes over |
| `Registry.List.SetDefaultDatasource` | gate/main.c:380-391 | the default changes exactly when the name is listed, as `DefaultIsSet` and `DefaultLasts` say for requests |
| `Registry.AddKeepsSound` | gate/main.c:218-241 | adding keeps at most 16 entries, unique names, sources that fit, and a listed default |
| `Registry.RemoveKeepsSound` | gate/main.c:243-267 | removing keeps them too |
| `Registry.RunsSound` | gate/main.c:218-391 | every run of adds, removals and default changes from the empty list keeps them; the default is listed exactly when the list is not empty |
| `Registry.UnnamedRequestServed` | gate/main.c:1189-1215 | after any run, a request naming no datasource goes to a listed one exactly when there is one |
| `Registry.NamedRequestServed` | gate/main.c:1189-1209 | a request that names a datasource goes to the source of that name, and is refused exactly when there is none |
| `Registry.AddExactly` | gate/main.c:218-241 | adding answers -1 for a full list of 16, else -2 for a listed name, else -3 for a port that is none, else 0; only then is the source, cut to its arrays, put last; the first one becomes the default |
| `Registry.DefaultIsSet` | gate/main.c:380-391 | setting the default succeeds exactly for a listed name; unnamed requests then go to the source of that name; otherwise nothing changes |
| `Registry.RemoveAndRequests` | gate/main.c:243-267 | removing the default makes the oldest other source serve unnamed requests, or the backend if there is none; removing another source changes nothing for them |
| `Registry.DefaultLasts` | gate/main.c:218-391 | in every run, once the default is set to a listed name, unnamed requests go to that source until the default is set again or the source is removed |
| `Registry.RemoveIsFilter` | gate/main.c:243-267 | removal is the order-preserving filter by name, and succeeds exactly when the name is listed |
| `Registry.AddThenRemove` | gate/main.c:218-267 | removing a source just added restores the list and the default |
| `RegistryFile.SaveDatasources` | gate/main.c:169-186 | the loop writes the printed form of the list and its default |
| `RegistryJson.FileParses` | gate/main.c:169-186 | a reader of RFC 8259 gets the default and the list from the saved file, when names and hosts need no escapes, if and only if all are in UTF-8 |
| `RegistryJson.FileShows` | gate/main.c:169-186 | what it gets is the default and, in order, the name, host and port of each source |
| `RegistryFile.LoadDatasources` | gate/main.c:57-167 | what the text says becomes the list and its default; an empty file changes nothing |
| `RegistryFile.ReadArray` | gate/main.c:102-165 | the cursor loop reads the objects, reusing slots of unusable ones and stopping at 16 |
| `RegistryFile.ReadFits` | gate/main.c:107-152 | whatever the file holds, names have at most 63 bytes and hosts at most 255 |
| `RegistryPieces.FindKey` | gate/main.c:83-115 | a key search stops at the first quoted piece equal to the key, be it a key or a value |
| `RegistryPieces.ReadObjText` | gate/main.c:107-152 | what the reader makes of one printed source, followed by any text |
| `RegistryReload.ReadCollects` | gate/main.c:96-165 | the object loop, stepping from brace to brace, keeps the first 16 usable sources read at the opening braces that follow a closing one |
| `RegistryReload.ReadInName` | gate/main.c:107-152 | at a brace inside a name, the reader takes host and port of that source and the name of the next one |
| `RegistryReload.ReadInHost` | gate/main.c:107-152 | at a brace inside a host, it takes the port of that source, and name and host of the next one as reread |
| `RegistryReload.ScanObj` | gate/main.c:96-165 | one printed source gives itself as reread, then one source for each brace of this kind in its name and host |
| `RegistryReload.LoadPrinted` | gate/main.c:57-186 | loading any printed list of quote-free sources gives the usable ones of these, row by row, up to 16, and the default |
| `RegistryRoundTrip.NoExtras` | gate/main.c:96-165 | a row brings nothing besides itself if and only if no `{` follows a `}` in it, or no source follows it and either its name has none such or its host is not `name` |
| `RegistryRoundTrip.RoundTrip` | gate/main.c:57-186 | loading what was saved restores list, order and default if and only if every source survives: it rereads as itself and nothing usable is seen inside it, or what is seen there stands in for the next source |
| `RegistryRoundTrip.RoundTripPlain` | gate/main.c:57-186 | for lists below 16 without the name `port`: if and only if a source named `host` has the host `host` and no source misleads the reader by a `{` after a `}` |
| `RegistryRoundTrip.BraceName` | gate/main.c:96-165 | the list of `a}{b` and `c` is reloaded with `c` twice, the first time with host and port of `a}{b` |
| `RegistryRoundTrip.RunReloads` | gate/main.c:57-267 | after any run with quote-free names and hosts, loading the saved file gives the same list and default if and only if every source survives |
| `RegistryRestart.Start` | gate/main.c:892-897 | starting loads the file and adds the source of the command line when nothing is listed; only that saves the file again |
| `RegistryRestart.RestartExactly` | gate/main.c:892-897 | a restart brings back a list that is not empty if and only if every source survives, and the empty list if and only if the port of the command line is above 65535 |
| `RegistryRestart.RestartRestores` | gate/main.c:57-267 | after any run with quote-free names and hosts, saving and restarting continues with the same list and default under exactly that condition |
| `RegistryRestart.EmptyRestart` | gate/main.c:892-897 | after adding a source and removing it, a restart lists the source of the command line |
| `RegistryRestart.ApartRows` | gate/main.c:57-167 | what is loaded from a printed list has different names if and only if each source seen inside a row is the last of 16, or the only one of that row and the only one named `port` |
| `RegistryRestart.KeptRows` | gate/main.c:57-167 | a name is among what is loaded if and only if its row, or an extra of that name, starts before place 16 |
| `RegistryRestart.NothingLoaded` | gate/main.c:57-167 | nothing is loaded from a sound list if and only if it has no source but one named `port` |
| `RegistryRestart.RestartSound` | gate/main.c:892-897 | a restart keeps unique names and a listed default if and only if these two conditions hold, or nothing is loaded and the list was empty or the command line gives a source |
| `RegistryRestart.RestartSoundPlain` | gate/main.c:57-167 | for lists below 16 without the name `port` and the host `name`: if and only if no source misleads the reader by a `{` after a `}` |
| `RegistryRestart.LostDefault` | gate/main.c:1205-1212 | a default named `port` is lost: after the restart a request naming no datasource goes to the backend although one is listed |
| `RegistryRestart.TwiceListed` | gate/main.c:57-167 | after a restart with `a}{b` and `c`, two sources have one name |
| `RegistryRestart.SafeRunsServed` | gate/main.c:57-267 | in every run with restarts over safe sources, the list is sound and a request naming no datasource goes to a listed one exactly when there is one |
| `RegistryRestart.UnsafeBreaks` | gate/main.c:57-267 | for every source that is not safe, a run of at most four operations after which a restart has changed the list |
| `RegistryRestart.RestartsHarmless` | gate/main.c:57-267 | in all runs of adds, removals, default changes and restarts the list is the one of a gateway that never stopped, save that an empty list gets the source of the command line, if and only if every source that may be added, and that one, is safe |
| `Params.UrlEncode` | gate/main.c:751-767 | the loop percent-encodes byte by byte |
| `Params.UrlDecode` | src/handler.c:72-103 | the loop decodes plus signs and complete escapes, and leaves incomplete ones alone |
| `Params.DecodeEncode` | gate/main.c:751-767 | decoding undoes encoding, for every body |
| `Params.DecodePieces` | src/handler.c:72-103 | however the bytes of a text are written, as themselves, escaped in hex digits of either case, or a blank as a plus sign, the text is decoded |
| `Params.IncompleteEscape` | src/handler.c:72-103 | a percent sign that two hex digits do not follow stands for itself |
| `Params.EncodedLength` | gate/main.c:751-767 | encoding adds two bytes for each ampersand, equals, percent and plus sign and none for any other byte |
| `Params.EscapesAre` | gate/main.c:751-767 | the four escapes, in upper-case digits |
| `Params.KeyBeforeEquals` | src/handler.c:23-42 | a key is found exactly when the text before some equals sign ends with it |
| `Params.QueryKeys` | gate/main.c:847-860 | for every body, the keys found in what the gateway sends are exactly `endpoint`, `body` and the texts these end with |
| `Params.NoOtherParameter` | src/handler.c:335-358 | no body can make the backend see a period, width, height or theme |
| `Params.BodyArrives` | src/handler.c:175-182 | a body is turned away exactly when its encoded form does not fit the buffer, and otherwise read back unchanged, with its endpoint |
| `IsoTime.FormulaInRange` | src/handler.c:114-118 | for valid dates no intermediate value leaves its unsigned type, for negative years too |
| `IsoTime.FormulaStep` | src/handler.c:113-119 | the next calendar day is one more, across months, leap days and eras |
| `IsoTime.FormulaCounts` | src/handler.c:113-119 | the closed formula equals counting days one at a time from 1970-01-01, for every date of every year |
| `IsoTime.EpochIncreases` | src/handler.c:108-121 | epoch seconds order date-times exactly as the calendar does, and differ for different ones |
| `IsoTime.DifferenceIsElapsed` | src/handler.c:108-121 | the difference of two epoch values is the number of seconds ticked from one to the other |
| `IsoTime.TickedFromZero` | src/handler.c:108-121 | every date-time from midnight 1970-01-01 on is reached from it by ticking its epoch seconds |
| `IsoTime.LeapSecond` | src/handler.c:120 | a second 60 counts as the first second of the next minute |
| `IsoTime.ScanJoin` | src/handler.c:111 | `sscanf` reads back every field of digits between separators, whatever follows |
| `IsoTime.ParsePrinted` | src/handler.c:108-121 | a written RFC 3339 date-time of the years 0000 to 9999, leap seconds included, parses to its epoch seconds, and what follows the seconds is ignored |
| `IsoTime.ParseWithoutSeconds` | src/handler.c:111 | a date-time may end with its minutes; its seconds are then zero |
| `IsoTime.ParseIncomplete` | src/handler.c:111 | a date, or a date with an hour, is not understood and gives 0 |
| `IsoTime.ParsedInstant` | src/handler.c:108-121 | the parsed value is the instant a timestamp denotes if and only if its offset is zero, and else off by the offset |
| `IsoTime.OffsetDropped` | src/handler.c:111 | a timestamp with `+02:00` that parses to two hours too late |
| `IsoTime.PeriodExactly` | src/handler.c:195-211 | with `from` before `to` as written, the query period is the time between the instants if and only if the offsets are equal; otherwise it is an hour, which is right if and only if truly no time or just an hour passes |
| `IsoTime.PeriodIsElapsed` | src/handler.c:195-211 | the query period of two timestamps of equal offsets is the time between their instants, second by second, or an hour when none passes |
| `IsoTime.PeriodWithoutFrom` | src/handler.c:194-212 | when only `from` is missing or not understood, the period is the seconds from 1970 to `to`; it is the default hour if and only if `to` is not after 1970-01-01T00:00:00, or one hour after |
| `IsoTime.PeriodWithoutTo` | src/handler.c:194-212 | when only `to` is, the period is the default hour, except for a `from` before 1970 that is not one hour before |
| `IsoTime.DateOnlyFrom` | src/handler.c:111 | any date without a time, or with an hour only, is such a `from` |
| `GrowBuffer.Buffer.Vsnprintf` | src/handler.c:126-130 | what `vsnprintf` promises: the whole length, and the text with its NUL when it fits |
| `GrowBuffer.Buffer.Grow` | src/handler.c:131-137 | doubling ends with room for the text and keeps what was written |
| `GrowBuffer.Buffer.Append` | src/handler.c:124-139 | exactly the text is appended, whatever its length; one pass when it fits, two otherwise |
| `GrowBuffer.Buffer.TrimComma` | src/handler.c:286 | takes off one trailing comma and nothing else |
| `Json.ReadValue` | src/handler.c:242-306 | the parser of RFC 8259 reads a printed value back and stops right behind it |
| `JsonText.PlainTail` | src/handler.c:268-276 | a string that needs no escapes is read as itself, up to its quote |
| `JsonText.TailShorter` | src/handler.c:268-276 | decoding never lengthens, and keeps the length only of a string without escapes |
| `Json.PrintShortest` | src/handler.c:242-306 | the print of a value is the one shortest text that is read as it |
| `Json.ReadsBack` | src/handler.c:242-306 | a print is read back if and only if its numbers are JSON numbers and its strings need no escapes and are in UTF-8 |
| `GrafanaQuery.AppendPoints` | src/handler.c:278-287 | the points loop, the trimmed comma and the brackets write the array of points |
| `GrafanaQuery.AppendSeries` | src/handler.c:268-290 | the series loop adds the non-empty series of a target, named by the target when they have no name |
| `GrafanaQuery.Query` | src/handler.c:242-296 | the assembled text is the print of the JSON array of all non-empty series in order, with times in milliseconds |
| `GrafanaQuery.AnswerParses` | src/handler.c:242-306 | a JSON reader that knows escapes and white space gets back exactly those series if and only if the names are in UTF-8 and need no escapes and every value was printed as a number |
| `GrafanaQuery.RowsShown` | src/handler.c:268-290 | the rows of the answer are all fetched series with points, in the order of the targets and their series, each under its own name, and under its target only when it has none |
| `GrafanaQuery.AnswerShows` | src/handler.c:242-306 | what a JSON reader gets from the text is one object for each such series, in order, with that name and, for each point, the value as `%g` writes it and 1000 times its epoch seconds |
| `Framing.CompleteExactly` | gate/main.c:971-987 | of all prefixes of a request, the loop's test accepts the whole one only |
| `Framing.RequestExactly` | gate/main.c:971-987 | a text is a head with the body it announces if and only if the test accepts it and none of its proper prefixes |
| `Framing.FieldAnnounces` | gate/main.c:974-976 | a decimal `Content-Length:` announces its number when it is the first in the head |
| `Framing.Test` | gate/main.c:971-987 | the test sees only received bytes, whatever an earlier request left in the buffer |
| `Framing.ReadRequest` | gate/main.c:957-988 | however the bytes arrive, the loop stops with the buffer equal to the whole request and without waiting for more; it stops earlier if and only if a `recv` times out before the request is whole |
| `Prometheus.CopyToken` | src/prometheus_source.c:90-94 | a token is the bytes up to a delimiter, cut to its buffer, and the cursor passes all of them |
| `Prometheus.PromParseLine` | src/prometheus_source.c:77-148 | the cursor loops skip, reject or take apart a line as its grammar says, with buffers of 128, 256, 64 and 32 bytes |
| `Prometheus.NextLine` | src/prometheus_source.c:248-259 | the cursor moves past exactly one line, which is handed out cut to 1023 bytes |
| `Prometheus.LinesCover` | src/prometheus_source.c:248-259 | the lines visited make up the whole body, in order, each without a newline |
| `Prometheus.CountSamples` | src/prometheus_source.c:282-298 | the first pass counts the finite samples of the metric, up to 1024 |
| `Prometheus.FillSlots` | src/prometheus_source.c:308-334 | the second pass fills every counted slot with the series of the samples, in document order |
| `Prometheus.Fetch` | src/prometheus_source.c:282-342 | the slots are the series of exactly the first 1024 finite samples of the metric, and none is missing; `Exposition.SlotsShow` says what they hold |
| `Exposition.RoundTrip` | src/prometheus_source.c:77-148 | a written sample is read back unchanged if and only if name, labels and value fit their buffers |
| `Exposition.ReadText` | src/prometheus_source.c:77-148 | whatever the lengths, it is read back with each part cut to its buffer |
| `Exposition.ReadSpaced` | src/prometheus_source.c:77-148 | and so it is with any blanks and tabs before and between the parts, none around the labels, or a carriage return at the end |
| `Exposition.DocumentFound` | src/prometheus_source.c:248-342 | fetching a metric from a document of written samples and comments finds exactly its finite samples, in order |
| `Exposition.SlotsShow` | src/prometheus_source.c:282-342 | after fetching from such a document, slot by slot: the labels as written are the name, or the metric when there are none; the one point has the value of the token, at the stamp in whole seconds cut toward zero, or now without a stamp |
| `StepSelection.FewerPoints` | src/rrd/reader.c:36 | a larger step never gives more points |
| `StepSelection.SelectStep` | src/rrd/reader.c:21-64 | the first archive with 100 to 2400 points; else an eligible one with the most points, with the loop's ties; else the raw archive for a recent range; else the base step |
| `StepSelection.NextFinest` | src/rrd/reader.c:42-49 | the loop's two update tests together keep the archive with the most points |
| `StepSelection.Fallback` | src/rrd/reader.c:52-63 | the first raw archive when the range is within the period, else the base step |
| `StepSelection.ChoiceIsUnique` | src/rrd/reader.c:21-64 | two steps that meet the description of the choice are equal |
| `StepSelection.ChoiceIsGood` | src/rrd/reader.c:21-64 | a choice is a positive step, acceptable whenever some archive is, and else not beaten by any eligible one |
| `StepSelection.ChoiceInNumbers` | src/rrd/reader.c:21-64 | the chosen step is that of the first `AVERAGE` archive, not finer than the base step, that gives 100 to 2400 points, rounded up; if none does, of one with the most points, the earliest below 100, one with the smallest step above 2400; without such an archive, of the first one of single values when the range lies within the period, or else the base step |
| `Extraction.SeriesOfTable` | src/rrd/reader.c:201-240 | for the table of rows whose concatenation the data is, series c of a plain fetch is column c without missing and negative values, each at the time of its row; the one series of a summed fetch has the sums of the first two values of each row, a missing one counting nothing |
| `Extraction.HasTable` | src/rrd/reader.c:177-186 | every matrix that a fetch can give is such a table |
| `Extraction.ExtractSeries` | src/rrd/reader.c:215-239 | a column, or the total, becomes the filter of its values that are there and not negative |
| `Extraction.PointsAreShown` | src/rrd/reader.c:215-239 | a series holds exactly the rows with such a value, at start + i * step, strictly increasing |
| `Extraction.BuildAll` | src/rrd/reader.c:201-240 | every series is built in new memory, in column order under its name, or as `total` |
| `Extraction.Extract` | src/rrd/reader.c:186-252 | the fetch gives nothing exactly when there are no rows or every series is empty |
| `Extraction.TransformsAgree` | src/rrd/reader.c:202-240 | the plain and the summed series of a matrix are the same if and only if its only data source is named `total` and misses no value |
| `Routing.FindMetricConfig` | src/cfg.c:272-300 | an exact match if there is one, else the longest endpoint of a metric that takes a parameter and that a slash follows in the path, else nothing; the first of equals |
| `Routing.OrderIrrelevant` | src/cfg.c:272-300 | with distinct endpoints, the order of the list never changes the choice |
| `Routing.ParamRestoresPath` | src/path_util.c:17-31 | a parametrized match is endpoint, slash and extracted parameter, and the parameter is missing only when nothing follows the slash |
| `Routing.ParamExactly` | src/path_util.c:17-31 | the parameter is exactly what follows the endpoint and one slash, or all that follows when no slash does, and never empty |
| `Routing.ParamArrives` | src/cfg.c:284-299 | a path built from an endpoint and a parameter comes back as both, unless another endpoint continues the first |
| `JsonEscape.Escape` | src/cfg.c:8-46 | the buffer is never overrun, and holds the escapes that fit and a NUL |
| `JsonEscape.WrittenMeansKept` | src/cfg.c:8-46 | byte by byte, the text keeps to section 7 of RFC 8259, every escape complete, and means the kept bytes |
| `JsonEscape.WholeCharacters` | src/cfg.c:8-46 | for an input in UTF-8, the text is in UTF-8 if and only if the room did not run out inside a character |
| `JsonEscape.RoomyWhole` | src/cfg.c:8-46 | where nothing is lost, UTF-8 stays UTF-8 |
| `JsonEscape.PlainWhole` | src/cfg.c:8-46 | an input in UTF-8 without characters to escape stays UTF-8 if and only if it is shorter than the buffer or its first byte that does not fit starts a character |
| `JsonEscape.PlainCopied` | src/cfg.c:8-46 | text that JSON takes as it is, without the delete character, is copied up to the size of the buffer |
| `JsonEscape.NoControls` | src/cfg.c:8-46 | no control character is written as it is, the delete character included |
| `JsonEscape.EscapedLength` | src/cfg.c:8-46 | escaping adds one byte for each quote, backslash, newline, return and tab, five for each other control character, and none for the rest |
| `JsonEscape.KeptInOrder` | src/cfg.c:8-46 | the kept characters are a subsequence of the input |
| `JsonEscape.Lossless` | src/cfg.c:8-46 | the whole input is kept if and only if the escaped text leaves the room the tests ask for |
| `CpuSampling.Utilization` | src/proc_source.c:51-63 | every reported value is within 0 and 100, for arbitrary counters below 2^63 |
| `CpuSampling.TicksAccounted` | src/proc_source.c:51-63 | utilization times elapsed ticks is the busy ticks, clamped to the elapsed ones |
| `CpuSampling.WorkShare` | src/proc_source.c:42-63 | times the elapsed ticks of all eight counters, the utilization is 100 for each tick of user, nice, system, irq, softirq and steal, and nothing for idle and iowait |
| `CpuSampling.NoTicks` | src/proc_source.c:57 | nothing is reported when the counters stand still or are reset |
| `CpuSampling.Sampler.Read` | src/proc_source.c:129-140 | a reading reports the utilization since the reading before it, or since boot, and replaces it |
| `CpuSampling.BusyConserved` | src/proc_source.c:44-63 | over every run of counters that never go back, the reports add up to the busy ticks since boot |
| `Chart.PlotArea` | src/handler.c:361-367 | sizes within 200 to 1600 and 120 to 800 are kept, others cut to these limits, 800 by 450 by default; the plot area keeps at least 120 by 25 units |
| `Chart.Margins` | src/scripts/generate_svg.js:101-108 | on charts of at least 625 by 375 the margins take 13 and 26 percent, on those up to 600 by 361 they take 80 and 95 units, and never less than either |
| `Chart.CollectData` | src/scripts/generate_svg.js:143-159 | the nested loops collect the points of all series that are there and not negative |
| `Chart.CollectedExactly` | src/scripts/generate_svg.js:143-159 | a point is collected if and only if its value is there and not negative, zero included |
| `Chart.TransformAll` | src/scripts/generate_svg.js:179-194 | the in-place loop multiplies or divides every collected value once and keeps the times |
| `Chart.FindBounds` | src/scripts/generate_svg.js:196-217 | the extremes cover all points and are reached |
| `Chart.AgreeExactly` | src/scripts/generate_svg.js:296-314 | scaling and drawing use the same points with the same values, on all data, if and only if the factor is positive |
| `Chart.PaddedRange` | src/scripts/generate_svg.js:219-229 | a percentage axis reaches from 0 to 100; another gets a tenth of its range on top, or of its value if it has only one, and as much below, down to zero; it is strictly positive and contains every value |
| `Chart.Scale` | src/scripts/generate_svg.js:143-229 | the scale is the padded range of the transformed points, missing only when there are none, and with a positive factor reaches every point that is drawn |
| `Chart.ReachesExactly` | src/scripts/generate_svg.js:179-229 | without a percentage axis a scale reaches every drawn point, on all data, if and only if the factor is positive |
| `Chart.PointsInside` | src/scripts/generate_svg.js:343-375 | every point lies inside the plot area, later ones further right, larger values higher |
| `Chart.TimeAxis` | src/scripts/generate_svg.js:343-375 | the oldest point lies on the left edge, the newest on the right one, and way is proportional to time |
| `Chart.ValueAxis` | src/scripts/generate_svg.js:343-375 | the limits of the axis lie on the bottom and the top edge, values beyond them are drawn on the edge, and way is proportional to value |

## Left out

- MetricSource.Fetch: only the SRC_RRD branch; `/proc` and Prometheus fetches do not use the cache, and building the RRD path from its template is formatting.
- FetchProtocol.HitIsFreshCopy: one fetch reads the archive at one moment; a read that spans clock ticks is not modelled.
- FetchProtocol.AgreementExactly: the archive path is the rendered template, an input of a request, and a configuration is only its identity.
- Cache.Table.Put: the array of slot pointers is a sequence of slot objects, and the tables of a metric's names, buffers and counts are immutable sequences filled before publication; freeing memory is only modelled as which entries are released.
- RegistryRoundTrip.RoundTrip: names and hosts contain no double quote, which no handler lets through, and the names differ, as after every run; what an edited file is read as is given by the reader (`RegistryFile.LoadDatasources`) alone.
- StepSelection.SelectStep: ranges fit a C `int`, as the caller's cast makes them; steps are positive, as the caller's filter makes them.
- Exposition.RoundTrip: timestamps fit 64 bits, and the value is a token whose meaning `strtod` gives.
- IsoTime.ParsePrinted: field values that overflow a C `int` are undefined in C and unbounded here.
- IsoTime.EpochIncreases: date-times with seconds below 60; `LeapSecond` says what a second 60 counts as.
- IsoTime.ParsedInstant: instants in whole seconds; a fraction of a second is accepted and dropped.
- GrafanaQuery.Query: `%g` is an arbitrary function from values to text, and milliseconds do not wrap at 64 bits; decoding the query body and looking the targets up are inputs.
- CpuSampling.Utilization: counters of 2^63 and more, whose signed difference may overflow; `sscanf` of the `/proc/stat` line is an input.
- RegistryJson.FileParses: what a JSON reader makes of names with control characters or backslashes is not described, only what the gateway's own reader does.
- Chart.Scale: coordinates before rounding to two decimals; gaps, segments, grid, labels, colours and tooltips are presentation.
- JsonEscape.Escape: buffers shorter than seven bytes, for which the unsigned room tests wrap; every caller has more.
- Floating-point rounding, infinities in RRD data, and failed allocations.
- Framing.ReadRequest: how long a timeout is, and what the gateway makes of a request that it cuts short.
- RegistryRestart.RestartsHarmless: the gateway is first started without a file, its command line names a host without a double quote, and saving never fails.
- Sockets, files, signals, argument parsing, LSRP, librrd, rrdcached, Duktape and OpenSSL; the scan of RRD information in `select_optimal_step`.
- `generate_metrics_json`, the escaper of src/http.c and `build_rrd_path`: single passes that format text, with no state and nothing that reads it back.
- URL parsing and the HTTP client of the Prometheus source: the body is an input of `Prometheus`.
- HTTP replies and the checks of the request handlers before a registry operation, authentication, static files and the browser interface.
