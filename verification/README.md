# HAProxy stick-table exporter: a Dafny model of its parsers and collection round

The exporter asks HAProxy's runtime socket for its stick-tables ("show table"),
then for the dump of every listed table ("show table <name>"). It turns each dump
into a `tableMetrics` snapshot: the table's name, its entry count, and per entry
line a `conn_rate` and an `http_req_rate` sample, together with the window each
rate is measured over. This project models that core in Dafny and proves what
the parsers read out of HAProxy's text.

The modules follow the Go functions:

- `Text`: the Go `strings` primitives the parsers rely on. These are `Index` (as an `Option`), `Split`, `Join`, `HasPrefix` (Dafny's `<=`) and `TrimSpace` with Go's `unicode.IsSpace`.
- `Numbers`: the number reader used in place of `strconv.ParseFloat`. It reads digit strings only, and a failed read gives 0, as the Go code ignores the error.
- `GoMap`: a Go `map[string]string` built by a run of assignments. A missing key reads as `""`.
- `Listing`: `getTablesFromFromAnswer`.
- `EntryLine`: `lineToMap`.
- `Header`: `firstLineToMap`.
- `Dump`: the `tableMetrics` record and `getTableMetricsFromAnswer`.
- `Collector`: `collect`. It takes the socket request as a parameter `ask`, which maps a command to the answer text or to the error the request ended with.

Where the Go code panics, the model has a precondition. The cases are:

- a listing line without a comma;
- an entry line without "key";
- a token without '=';
- a '(' in a token head that the head's first ')' does not follow;
- a header piece without ':'.

`Dump.ReadDump` is the total form of the dump parser. It returns None exactly where `getTableMetricsFromAnswer` would panic: `Dump.HeaderWithoutColon` and `Dump.EntryWithoutKey` pin down two such answers. `Collector.CollectOk` asks for readable text only where the Go loop actually parses it.

`collect` empties the package-level `tableMetricsSlice` and appends one snapshot per dumped table. `Collector.Collect` returns that slice together with the error `collect` returns. After a failed dump request the slice holds the snapshots of the tables dumped before the failure, and the model keeps that partial result too.

## Model

| member | source | states |
|---|---|---|
| Text.IndexOf | haproxy-table-prometheus-exporter.go:166 | `strings.Index` for one character: None exactly when the character is absent, otherwise a position holding it with no earlier occurrence |
| Text.IndexOfSub | haproxy-table-prometheus-exporter.go:193 | `strings.Index` for a substring: the first position where it occurs, None when it occurs nowhere |
| Text.Split | haproxy-table-prometheus-exporter.go:164 | `strings.Split` yields at least one piece, exactly one when the separator is absent, no piece holds the separator, and joining the pieces gives the text back |
| Text.SplitJoin | haproxy-table-prometheus-exporter.go:164 | splitting the join of separator-free pieces gives exactly those pieces |
| Text.TrimSpace | haproxy-table-prometheus-exporter.go:240-241 | the result has no white space at either end and the input is the result padded with white space only |
| Text.TrimPadded | haproxy-table-prometheus-exporter.go:285 | trimming white-space padding around a trimmed text gives that text, so the trimmed core is unique |
| Numbers.ParseNum | haproxy-table-prometheus-exporter.go:282 | the reader succeeds exactly on non-empty strings of decimal digits |
| Numbers.ParseToDecimal | haproxy-table-prometheus-exporter.go:290 | reading the decimal numeral of n gives n back |
| GoMap.Assign | haproxy-table-prometheus-exporter.go:209-212 | every key of the built map holds a value that was assigned to that key |
| GoMap.AssignLastWins | haproxy-table-prometheus-exporter.go:212 | a key holds the value of its last assignment |
| GoMap.AssignOnlyKeyMatters | haproxy-table-prometheus-exporter.go:212 | whether a key is present, and its value, depend only on the assignments to that key |
| GoMap.AssignOthersAfter | haproxy-table-prometheus-exporter.go:212 | assignments to other keys made later leave a key's value unchanged |
| Listing.TableNameOf | haproxy-table-prometheus-exporter.go:166 | the name of a table line is the comma-free text between the "# table: " marker and the line's first comma |
| Listing.TableLinesSpec | haproxy-table-prometheus-exporter.go:164-165 | the table-line positions are strictly increasing and include every line that starts with the marker |
| Listing.TablesFromLines | haproxy-table-prometheus-exporter.go:164-168 | the listing gives no more names than it has lines, and no name holds a comma |
| Listing.TablesFromLinesSpec | haproxy-table-prometheus-exporter.go:164-168 | the listing gives exactly one name per table line, and the k-th name is the name on the k-th table line |
| Listing.TablesFromLinesAppend | haproxy-table-prometheus-exporter.go:164-168 | the names of two runs of lines are the names of the first run followed by those of the second |
| Listing.OtherLineIgnored | haproxy-table-prometheus-exporter.go:165 | a line without the marker contributes no name, wherever it stands |
| Listing.BlankLinesIgnored | haproxy-table-prometheus-exporter.go:164-165 | blank lines between or after the table lines do not change the names |
| Listing.ListingLinesRoundTrip | haproxy-table-prometheus-exporter.go:164-168 | table lines rendered from comma-free names give back exactly those names, in order |
| Listing.ListingRoundTrip | haproxy-table-prometheus-exporter.go:158-171 | a whole "show table" answer made of rendered lines, none or more, can be parsed and names exactly the rendered tables, in order |
| Listing.EmptyListing | haproxy-table-prometheus-exporter.go:162-170 | an empty answer can be parsed and names no table |
| Listing.ListingExample | haproxy-table-prometheus-exporter.go:154-171 | the first two lines of the listing in the source comment, with a blank line and a final line break, names `monitoring` and then `fe_https` |
| EntryLine.TokenValue | haproxy-table-prometheus-exporter.go:198-199 | a token's value is the text between its first '=' and the next '=' or the end |
| EntryLine.ParseHead | haproxy-table-prometheus-exporter.go:201-208 | a head without '(' is the whole field name; otherwise the field is the text before the first '(' and the window is the text between it and the first ')' |
| EntryLine.ParseToken | haproxy-table-prometheus-exporter.go:196-212 | a token reads as its value (the text after the first '=', up to the next '='), and as its whole head when the head has no '(', otherwise as the field before the first '(' and the window up to the first ')'; neither field nor value holds '=' |
| EntryLine.ParseRenderToken | haproxy-table-prometheus-exporter.go:196-212 | a clean token `f=v` or `f(w)=v` as HAProxy writes it reads back as its field, window and value |
| EntryLine.RenderedTokensRoundTrip | haproxy-table-prometheus-exporter.go:193-199 | a run of rendered clean tokens can be parsed and reads back as those tokens |
| EntryLine.LineToMap | haproxy-table-prometheus-exporter.go:189-221 | no key or value of an entry line's map holds a space or '=' |
| EntryLine.AddressIgnored | haproxy-table-prometheus-exporter.go:193 | an address without "key" in front of the tokens changes neither whether the line can be parsed nor its map |
| EntryLine.RenderedLineRoundTrip | haproxy-table-prometheus-exporter.go:189-213 | a rendered entry line maps exactly as its tokens' assignments, applied in order |
| EntryLine.InsertedTokenIgnored | haproxy-table-prometheus-exporter.go:193-213 | a token that does not write a key, neither as its field nor as its field's `_interval` key, leaves that key's value unchanged wherever it is inserted |
| EntryLine.SwappedTokensIgnored | haproxy-table-prometheus-exporter.go:193-213 | swapping a neighbour with a token that does not write a key leaves that key's value unchanged |
| EntryLine.LastTokenDecidesField | haproxy-table-prometheus-exporter.go:212 | a field's value is the value of the last token that writes that field |
| EntryLine.LastTokenDecidesInterval | haproxy-table-prometheus-exporter.go:207-209 | `f_interval` holds the window of the last token that writes it |
| EntryLine.TokenRead | haproxy-table-prometheus-exporter.go:207-212 | the final token's value, and its window under `f_interval`, are what the map holds |
| EntryLine.EntryExample | haproxy-table-prometheus-exporter.go:176-184 | the documented entry line gives `conn_rate` 40 with window 3000 and `http_req_rate` 19 with window 10000 |
| Header.HeaderBody | haproxy-table-prometheus-exporter.go:237 | the header body is the text after the first '#', or the whole line when it has none |
| Header.ParsePiece | haproxy-table-prometheus-exporter.go:239-241 | a header piece gives a trimmed key and value, neither holding ':' |
| Header.ParsePaddedPiece | haproxy-table-prometheus-exporter.go:239-242 | any piece made of a trimmed ':'-free key and value around one ':', each padded with white space only, reads back as that key and value |
| Header.ParseRenderPiece | haproxy-table-prometheus-exporter.go:239-242 | a rendered piece ` key: value` reads back as its key and value, padding trimmed away |
| Header.FirstLineToMap | haproxy-table-prometheus-exporter.go:233-248 | every key and value of the header map is trimmed and holds no ':' or ',' |
| Header.HeaderRoundTrip | haproxy-table-prometheus-exporter.go:233-248 | a rendered header of clean fields can be parsed, and its map is the fields assigned in order |
| Header.HeaderFieldValue | haproxy-table-prometheus-exporter.go:242 | the value of a header key is that of its last field |
| Header.LastFieldWins | haproxy-table-prometheus-exporter.go:242 | among fields with the same key, the last one decides the value |
| Header.HeaderExample | haproxy-table-prometheus-exporter.go:226 | the documented header gives table `fe_http` and used `1` |
| Dump.FirstBlank | haproxy-table-prometheus-exporter.go:284-287 | the loop stops at the first line that is blank after trimming, and every line before it is not blank |
| Dump.EntryMaps | haproxy-table-prometheus-exporter.go:284-288 | there is exactly one entry map per line before the first blank one |
| Dump.AddEntries | haproxy-table-prometheus-exporter.go:284-302 | the loop over the entries keeps the snapshot's name and entry count |
| Dump.AddEntriesSamples | haproxy-table-prometheus-exporter.go:284-302 | after the loop, a rate's samples are the earlier ones followed by the entries' samples, in order |
| Dump.FirstWindowSpec | haproxy-table-prometheus-exporter.go:292-294 | the reference window is empty exactly when every entry's window is, and otherwise is the window of the first entry that has one |
| Dump.AddEntriesInterval | haproxy-table-prometheus-exporter.go:292-300 | after the loop, a window already set is kept and an empty one becomes the first non-empty window of the entries |
| Dump.TableMetricsFromAnswer | haproxy-table-prometheus-exporter.go:260-282 | the snapshot always carries the requested name; a header naming another table gives the empty snapshot; otherwise the count is the header's `used` |
| Dump.HeaderWithoutColon | haproxy-table-prometheus-exporter.go:239-241 | an answer whose header holds a piece without ':' cannot be read, whatever follows the header |
| Dump.EntryWithoutKey | haproxy-table-prometheus-exporter.go:273-288 | after a header naming the requested table, a non-blank line without "key" makes the answer unreadable, whatever follows it |
| Dump.OtherTableBodyIgnored | haproxy-table-prometheus-exporter.go:273-280 | an answer whose readable header names another table gives the empty snapshot of the requested name, whatever the lines after the header hold |
| Dump.DumpSamples | haproxy-table-prometheus-exporter.go:284-302 | for the requested table, a rate's samples are those of the entry maps of the lines after the header, up to the first blank one |
| Dump.DumpSampleAt | haproxy-table-prometheus-exporter.go:284-297 | there are as many samples as lines before the first blank one, and the i-th is the number read from that line's field |
| Dump.DumpInterval | haproxy-table-prometheus-exporter.go:292-300 | for the requested table, a rate's window is the first non-empty window among the entry lines, and later lines never overwrite it |
| Dump.IntervalKeyNotField | haproxy-table-prometheus-exporter.go:207 | no `_interval` key is a rate field, so a window never overwrites a sample |
| Dump.UnwatchedTokenIgnored | haproxy-table-prometheus-exporter.go:290-299 | a token for any other field leaves each rate's sample and window unchanged |
| Dump.UnwatchedTokenSwapped | haproxy-table-prometheus-exporter.go:290-299 | the position of a token for any other field does not affect a rate's sample or window |
| Dump.OneEntryDump | haproxy-table-prometheus-exporter.go:260-305 | a dump with one entry line gives the header's count, one sample per rate read from that line, and that line's windows |
| Dump.DumpExample | haproxy-table-prometheus-exporter.go:256-257 | the documented dump gives `fe_http` with 1 entry, `conn_rate` samples [40] over 3000 and `http_req_rate` samples [19] over 10000 |
| Collector.DumpAll | haproxy-table-prometheus-exporter.go:324-336 | the loop ends with no error exactly when every table is dumped; an error is the first failed request's; the i-th snapshot is the i-th dump parsed |
| Collector.DumpAllComplete | haproxy-table-prometheus-exporter.go:324-338 | when every dump request succeeds, the loop ends without an error |
| Collector.Collect | haproxy-table-prometheus-exporter.go:308-339 | a failed listing request gives no snapshots and its error; otherwise every table is requested with "show table <name>", in listing order; the requests before the snapshot count succeeded, there is an error exactly when a table is missing, the error is that table's failed request, and each snapshot carries its table's name |
| Collector.CollectSnapshot | haproxy-table-prometheus-exporter.go:334 | the i-th snapshot is the i-th listed table's dump, parsed, and carries that table's name |
| Collector.AllDumpsRead | haproxy-table-prometheus-exporter.go:324-334 | when every dump request succeeds with a dump that can be read, the loop reads every dump |
| Collector.CollectNamedTables | haproxy-table-prometheus-exporter.go:316-338 | a round whose listing names the tables, with every dump request succeeding and readable, ends with no error and one snapshot per table, in listing order |
| Collector.CollectListedTables | haproxy-table-prometheus-exporter.go:308-339 | the same holds for a listing rendered from the tables, an empty one included |

## Left out

- Printing: every `fmt.Println` and `fmt.Printf` trace in these functions only writes to standard output, so none is modelled.
- `askHaproxy` (the Unix-socket request): it is the `ask` parameter of `Collector.Collect`. What HAProxy answers is not modelled.
- `updateMetrics`, the Prometheus gauges, the scheduler and `main` are not part of this model.
- The concurrent access to `tableMetricsSlice` by `updateMetrics` is not modelled. `Collect` returns the slice's final contents instead of mutating a global.
- Numbers.ParseNum: reads only non-empty digit strings, not Go's `float64` syntax. Signs, decimal points, exponents, "Inf", "NaN" and underscores read as a failure, so `NumOrZero` gives 0 where `strconv.ParseFloat` gives a value. Rates and counts in HAProxy's dumps are plain decimal integers. Floating point is left out.
- Dump.TableMetricsFromAnswer: the record's numeric fields are naturals, not `float64`, so rounding of large values is not modelled.
- Go strings are byte sequences and the model works on characters. Every separator the parsers use is ASCII, so positions agree on ASCII text. `TrimSpace` follows `unicode.IsSpace` on characters, not on UTF-8 bytes.
- Go panics are preconditions, or None from `Dump.ReadDump`. The model does not describe what a panic does to the running exporter.
