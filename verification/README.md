# nats-top core, modelled in Dafny

nats-top is a `top`-style monitor for a NATS server. It polls the server's
`/varz` (aggregate status) and `/connz` (connection list) monitoring
endpoints. It derives traffic rates from the cumulative counters, ranks the
connections by a selectable key, and redraws a text table. While it runs, a
small keyboard state machine lets the operator change the sort key.

This project models the sequential core of that program as pure functions
and methods over immutable datatypes, and proves properties about them:

- `goint.dfy` (`GoInt`): Go's `int64`, with wrap-around subtraction.
- `decimal.dfy` (`Decimal`): decimal text of integers (`%d`, and `%.0f` of an
  integral value) and the matching parser.
- `float64.dfy` (`Float64`): the binary64 conversion `float64(s)` of an
  integer, and round-half-to-even. `%.1f` uses that rounding.
- `psize.dfy` (`SizeFormat`): `Psize`, the human-readable byte-size formatter.
- `conn.dfy` (`Conn`): connection records, the seven sort keys, the
  `sort.Interface` adapters `ByCid` … `ByBytesFrom`, and a sort over them.
- `request.dfy` (`StatsRequest`): `Engine.Request`. It chooses the endpoint,
  builds the URI and query string, and shapes errors.
- `polling.dfy` (`Polling`): `fetchStats`, `FetchStatsSnapshot` and the
  first-poll/baseline state machine of `MonitorStats`.
- `keyboard.dfy` (`Keyboard`): startup validation of the sort option, and
  the keyboard loop of `main`.
- `simpleui.dfy` (`SimpleUi`): the sort dispatch and per-poll delta tracking
  of `StartSimpleUI`.
- `outcomes.dfy` (`Outcomes`): `Option` and `Result`.

`util/toputils.go` and `nats-top.go` come from different revisions of
nats-top, and each is modelled against its own code:
- `util/toputils.go` has the two-argument `Psize` and the `Engine` type.
- `nats-top.go` is an older main program.

Some behaviour of the code is easy to get wrong, and the model states it as
the code has it:
- **Ranking is not stable.** `sort.Sort` does not keep equal keys in their
  original order. `Conn.Sort` therefore promises a sorted permutation and
  nothing about ties.
- **A failed poll does not reset the baseline.** `MonitorStats` leaves
  `isFirstTime` and `lastPollTime` untouched when a poll fails.
- **A failed `/connz` request keeps the fetched `/varz` data.** Only a
  failure of the first request leaves both payloads empty.
- **The printed mantissa can reach 1024.0.** `Psize(false, 1048575)` is
  `"1024.0K"`, so the scaled value is not always below 1024.
- **Raw display is exact only up to 2^53.** `Psize` converts to `float64`
  first, so the raw output of a larger int64 shows the binary64 rounding of
  the value.

## Model

| member | source | states |
|---|---|---|
| `Decimal.IntToStringRoundTrip` | util/toputils.go:273-274 | The decimal text of any integer reads back as that integer: the plain form carries the value and nothing else. |
| `Float64.RoundHalfEven` | util/toputils.go:277-285 | The result is within half a step of n/d, and is even on an exact tie. Go's exact-decimal `%.1f` rounds this way. |
| `Float64.RoundHalfEvenUnique` | util/toputils.go:277-285 | Any integer meeting those two conditions is the rounded result, so the contract defines the rounding completely. |
| `Float64.OfNat` | util/toputils.go:271 | `float64(n)` of a non-negative integer is a multiple of the binary64 spacing at n (1 below 2^53, doubling with each further bit). It is within half a spacing of n, and on a tie it is the even multiple. It is n itself up to 2^53. |
| `Float64.OfNatUnique` | util/toputils.go:271 | Any multiple of the spacing that meets those conditions is `float64(n)`, so the contract defines the conversion completely. |
| `Float64.OfInt` | util/toputils.go:271 | `float64(s)` of an int64 is the nearest multiple of the binary64 spacing at \|s\|, ties to the even multiple. It is the identity for \|s\| <= 2^53, keeps the sign, and stays beyond ±2^53 beyond it. |
| `Float64.OfIntLosesLowBit` | util/toputils.go:271 | 2^53 + 1 converts to 2^53: past the 53-bit significand the conversion rounds. |
| `SizeFormat.Psize` | util/toputils.go:270-286 | The output is never empty. With raw display, or below 1024, it parses back as `float64(s)`. Otherwise it ends in K exactly when 1024 <= s < 1024², in M exactly when 1024² <= s < 1024³, and in G exactly when s >= 1024³. |
| `SizeFormat.PsizeReadsBack` | util/toputils.go:270-286 | Parsing the output gives the binary64 value of s when it is printed plain (raw display or below 1024). Otherwise it gives a count of tenths of K, M or G. The unit is chosen by the 1024 / 1024² / 1024³ thresholds, and the count is the nearest tenth, with ties to even. |
| `SizeFormat.PsizeSuffix` | util/toputils.go:273-285 | Without raw display, the output ends in a digit exactly when s < 1024. It ends in K exactly when 1024 <= s < 1024², in M exactly when 1024² <= s < 1024³, and in G exactly when s >= 1024³. |
| `SizeFormat.PsizePlainIsDecimal` | util/toputils.go:273-274 | With raw display, or below 1024, the output is the decimal text of s itself whenever \|s\| <= 2^53. |
| `SizeFormat.PsizeRawRounds` | util/toputils.go:271-274 | The raw output of 2^53 + 1 is the text of 2^53. |
| `SizeFormat.PsizeBoundaryExamples` | util/toputils_test.go:148-175 | 1023 prints as "1023"; 1024, 1024² and 1024³ print as "1.0K", "1.0M" and "1.0G". |
| `SizeFormat.PsizeRawExamples` | util/toputils_test.go:177-204 | With raw display, 1023, 1024, 1024² and 1024³ print as their full decimal text. |
| `SizeFormat.PsizeRoundingExamples` | util/toputils.go:277-278 | 1280 (exactly 1.25K) prints as "1.2K" because of the tie-to-even rule. 1048575 prints as "1024.0K". |
| `Conn.KeyOfName` | nats-top.go:51-59 | A name selects a key only if it is that key's name, and every one of the seven names selects its key. |
| `Conn.NameRoundTrip` | nats-top.go:51-59 | Each key's name selects that key. |
| `Conn.SortConstant` | util/types.go:20-27 | The `SortBy*` constants carry each key's name. There is no constant for pending, and only for pending. |
| `Conn.Len` | util/types.go:30-32 | `Len` of every adapter is the number of connections; `Conn.Swap` and `Conn.Sort` state that it does not change. |
| `Conn.Less` | util/types.go:37-111 | An adapter's `Less(i, j)` holds exactly when connection i ranks before connection j in ascending order of the key, and never between two equal keys. |
| `Conn.ReverseLess` | util/types.go:37-111 | `sort.Reverse` of an adapter holds exactly when the key at j is below the key at i, which is ascending order of the negated key, i.e. descending order. |
| `Conn.Swap` | util/types.go:31-36 | `Swap(i, j)` exchanges positions i and j. It leaves every other position and the length (`Len`) unchanged, and the list stays a permutation of itself. |
| `Conn.LessIsStrictWeakOrder` | util/types.go:37-111 | Each adapter's `Less` compares one field with `<`. It and its `sort.Reverse` form are irreflexive, transitive and asymmetric, with transitive incomparability. |
| `Conn.Sort` | util/types.go:29-111 | Sorting with an adapter (or its reverse) through `Less` and `Swap` returns a permutation of the input, ordered by the key: ascending, or descending for the reverse. |
| `Conn.SortedHeadIsExtreme` | nats-top.go:257-272 | In a list sorted by a key, the first connection has the smallest key when ascending and the largest when descending. |
| `StatsRequest.Target` | util/toputils.go:48-60 | Only "/varz" and "/connz" have a target. The varz URI is the base URI plus "/varz" with no query. The connz URI adds the limit/sort query and decodes into the connection list. |
| `StatsRequest.ConnzQueryRoundTrip` | util/toputils.go:54-57 | The connz query string reads back as exactly the engine's limit, its sort option, and "subs=1" present exactly when subscriptions are displayed. This assumes the sort option contains no '&'. |
| `StatsRequest.IndexOfLineBreak` | util/toputils.go:76 | Returns the index of the first CR or LF in the body, or -1 when there is none. |
| `StatsRequest.ExcerptAsWritten` | util/toputils.go:75-80 | The code's excerpt fails (the slice panics) exactly when the body has no CR or LF. |
| `StatsRequest.ExcerptAsWrittenPanicsOnEmptyBody` | util/toputils.go:76-80 | An empty body, or "OK" without a newline, makes the as-written excerpt fail. |
| `StatsRequest.Excerpt` | util/toputils.go:75-80 | The excerpt is a prefix of the body of at most 80 bytes with no CR or LF. It is cut at 80 bytes, at the first line break, or at the end of the body. It agrees with the code wherever the code does not panic. |
| `StatsRequest.Decode` | util/toputils.go:83-88 | Decoding succeeds exactly when the endpoint's decoder accepts the body, and the payload is then the decoder's value, typed by the endpoint. Otherwise the result is the unmarshal error. |
| `StatsRequest.Request` | util/toputils.go:45-89 | An unknown path gives the invalid-path error whatever the server does, so no call is made. A transport or read failure gives the matching error. A non-200 reply always gives the error carrying its status and the excerpt. A 200 reply gives exactly the decoding of its body for the path's endpoint, and only a 200 reply can succeed. |
| `Polling.FetchStats` | util/toputils.go:122-206 | Success (the `errDud` sentinel) happens exactly when both requests succeed. A failed /varz gives empty payloads and the zero time; a failed /connz keeps the fetched varz. Both failures give zero rates. On success the time is `now` and the payloads are the fetched ones. Rates are zero on the first poll; otherwise they run from the last poll time to now, and each delta is the cumulative counter, because the "last value" locals start at zero. |
| `Polling.FetchStatsSnapshot` | util/toputils.go:114-118 | A one-off snapshot always has zero rates, and succeeds exactly when both requests do. |
| `Polling.MonitorTick` | util/toputils.go:103-109 | Each tick sends the poll's snapshot. A successful poll moves the baseline to (not first, now); a failed poll leaves it unchanged. |
| `Polling.MonitorRun` | util/toputils.go:95-111 | A run of `MonitorStats`'s loop sends one snapshot per tick. Its contents are stated by `Polling.MonitorRunPrefix`, `Polling.MonitorRunSendsEveryPoll` and `Polling.MonitorRunBaseline`. |
| `Polling.MonitorRunPrefix` | util/toputils.go:95-111 | The snapshots of a prefix of the ticks are the same prefix of the run's snapshots: later ticks never change what was already sent. |
| `Polling.MonitorRunSendsEveryPoll` | util/toputils.go:98-111 | Over a run, the i-th snapshot sent is the poll made from the baseline left by the ticks before it. |
| `Polling.MonitorRunBaseline` | util/toputils.go:95-107 | After a run, the baseline is unchanged if no poll succeeded. Otherwise it is "not first" and timed at the last successful poll. |
| `Polling.MonitorFirstSuccessHasZeroRates` | util/toputils.go:95-109 | From a fresh monitor, every snapshot up to and including the first successful one has zero rates. |
| `Polling.MonitorRatesSpanFromLastSuccess` | util/toputils.go:187-196 | A successful poll after an earlier success has rates over the interval from that success's clock reading to its own. Failed polls in between are skipped. |
| `GoInt.Sub64` | util/toputils.go:177-180 | int64 subtraction is the difference modulo 2^64, and equals the plain difference when that fits. |
| `GoInt.SubOfCountersIsExact` | nats-top.go:212-215 | The difference of two non-negative counters never wraps. |
| `Keyboard.ValidateSortOption` | nats-top.go:51-69 | A startup sort value is accepted exactly when it is one of the seven names; otherwise it is rejected (usage). |
| `Keyboard.Start` | nats-top.go:39-69 | The loop starts outside sort entry, with an empty header and the validated sort value, exactly when that value is valid. |
| `Keyboard.SortPrompt` | nats-top.go:94 | The prompt ends with the current sort key in brackets followed by ": ". |
| `Keyboard.OnKeys` | nats-top.go:92-122 | "q" quits only outside sort entry. Outside it, "o" enters sort entry with the prompt as header, and any other line changes nothing. During sort entry, every line leaves it and clears the header. The sort value changes only to the name on a line that is exactly one of the seven names plus a newline. |
| `Keyboard.Session` | nats-top.go:87-123 | The loop over key lines quits only if one of the lines is "q". |
| `Keyboard.SessionKeepsSortValid` | nats-top.go:87-123 | Over any sequence of key lines, the sort value stays one of the seven names and host, port, limit and delay never change. |
| `Keyboard.SortEntrySelects` | nats-top.go:93-121 | "o" followed by a key's name selects that key and clears the prompt. |
| `Keyboard.UnrecognisedSortKeepsSort` | nats-top.go:102-121 | "o" followed by a line that names no key leaves the sort value as it was and clears the prompt. |
| `Keyboard.QuitIgnoredDuringSortEntry` | nats-top.go:98-121 | "o" then "q" does not quit: the "q" is consumed as an unknown sort entry. |
| `SimpleUi.SortConnections` | nats-top.go:257-272 | For a valid sort value, the list is permuted into ascending cid order, or descending order of the chosen field for the six other keys. Any other value leaves the list as it is. |
| `SimpleUi.Poll` | nats-top.go:212-232 | Each iteration stores the current counters and poll time and clears the first flag. It keeps the previous (zero) rates on the first iteration; afterwards the rates are the current-minus-last deltas over the interval since the previous poll. |
| `SimpleUi.Run` | nats-top.go:164-288 | After no iterations the state is as it started. After at least one, the first flag is down and the stored counters and poll time are those of the latest sample. |
| `SimpleUi.RunTracksLatestDeltas` | nats-top.go:164-288 | After n >= 1 iterations from the start, the rates are zero if n = 1. Otherwise they are the deltas between the two latest samples over their interval. The last counters are those of the latest sample. |
| `SimpleUi.GrowingCountersGiveExactDeltas` | nats-top.go:212-215 | For counters that do not shrink, every shown delta is the plain, non-negative difference. |

## Findings

| source | as written | input that shows it | evidently intended | confidence | as-written member | corrected member |
|---|---|---|---|---|---|---|
| util/toputils.go:76-80 | When a non-200 body has no CR or LF, `bytes.IndexAny` returns -1. The 80-byte cap leaves that -1 in place, and `body[:end]` slices to -1, which panics. | A reply with status 500 and an empty body (or a body "OK" with no newline) | Report the first 80 bytes of the whole body when it has no line break | high (not executed) | `StatsRequest.ExcerptAsWritten` (shown by `StatsRequest.ExcerptAsWrittenPanicsOnEmptyBody`) | `StatsRequest.Excerpt` (used by `StatsRequest.Request`) |

## Left out

- HTTP and TLS plumbing (`NewEngine`, `SetupHTTP`, `SetupHTTPS`, `HttpClient.Get`, body reading, `json.Unmarshal`) are foreign library calls. A `Server` value stands for them: the response to each URI and the decoding of a body into each payload.
- The error message texts (`fmt.Errorf` with `%q` and `%w`) are not modelled. Each error is a datatype case carrying the same data.
- The goroutine and channel coordination of `MonitorStats` (the `select` on `ShutdownCh` and `time.After`, `StatsCh`) is not modelled. A run is a finite sequence of ticks, each sending its snapshot.
- The floating-point rate arithmetic is not modelled: the divisions in `fetchStats` (util/toputils.go:192-195), and the `float64(delta) - tdelta.Seconds()` of `StartSimpleUI` with its negative `tdelta` (nats-top.go:223, 228-231). A `Rate` records the integer delta and the two poll instants.
- Rendering is not modelled: the `fmt.Sprintf` table, `clearScreen`, `cleanExit`, printing of the header, and the one-argument `Psize` calls of nats-top.go.
- The goroutines and `sync.WaitGroup`, `log.Fatalf` on a failed request, and `time.Sleep` in `StartSimpleUI` are not modelled. Its poll samples are taken as successful inputs.
- `listenKeyboard` and signal handling are not modelled. Key lines and quits are inputs and outputs of `Keyboard.OnKeys`.
- The startup smoke test and the free function `Request(path, opts)` that nats-top.go calls are not modelled. That function belongs to an older revision of util/toputils.go. The `Engine.Request` method of util/toputils.go is modelled instead.
- `StatsRequest.Request`: uses the corrected `StatsRequest.Excerpt`. On a non-200 reply whose body has no CR or LF, util/toputils.go:80 panics, which ends the `MonitorStats` goroutine and the program. The model instead returns the status error with the whole body (up to 80 bytes) as the excerpt. `Polling.FetchStats` and `Polling.MonitorTick` then report a failed poll and the run goes on. The as-written behaviour is `StatsRequest.ExcerptAsWritten` (see Findings).
- The `Stats` and `Rates` records of util/types.go (an older revision without an error field) are not modelled separately. `Polling.Stats` models the util/toputils.go version.
- `Conn.Sort`: the exact placement of connections with equal keys chosen by Go's unstable sorting algorithm is not modelled. It is an insertion sort through the same `Less` and `Swap`, and promises only a sorted permutation.
- CPU load, a float that is only printed, is not modelled. The other fields that are only printed (a connection's IP, port, language and version, and the server's memory) are carried through unchanged, and no property is stated about them.
- Per-connection rates and the interactive modes of later revisions of nats-top.go (limit entry, help, toggles) are not modelled.
- context.go (`withContext` and `extractNatsHost`) reads NATS context profile files and delegates to Go's URL parsing. It is not part of this model.
- `Nsize`, which util/toputils_test.go:218-311 exercises, is not defined in util/toputils.go at this revision. It is not part of this model.
