# log-monitor, modelled in Dafny

log-monitor tails the logs of supervisord programs (`supervisorctl tail -f
<program>`). It keeps the lines of Gin's access log, the ones that carry the
marker `GIN`. Each such line is split with an awk program into date, time,
status, duration, client address, method and request path. The path is
matched against a list of API path prefixes loaded from a file, and the path
is replaced by the longest matching prefix. The entries go to a MySQL table
in batches of 100, one INSERT per row.

The model follows `main.go` function by function:

- `text.dfy` (module `Text`) holds the Go string functions the program relies
  on: `strings.Contains`, `strings.Trim`, `strings.TrimSpace` with Go's full
  `unicode.IsSpace` set, and `strings.Fields`. Joining printed values with a
  separator is modelled too.
- `parser.dfy` (module `Parser`) holds the `LogEntry` record and
  `ParseLogWithAWK`. The external `awk '{print $2,$4,$6,$8,$10,$12,$13}'` is
  modelled as a function: it splits records at `\n` and fields at blanks,
  then prints the chosen columns separated by one space. `MapFields` is the
  in-process half: it checks for seven fields, maps them onto the record and
  unquotes the path.
- `matcher.dfy` (module `Matcher`) holds `LongestMatch`. It is a loop over
  the API set in an arbitrary order, proved equal to `LongestPrefix`, a
  reference definition that does not depend on iteration order.
- `sink.dfy` (module `Sink`) holds the database as a class:
  - its table rows and a count of executed statements;
  - an oracle `execOk` that says whether the n-th INSERT succeeds;
  - a ghost record of every batch handed to `InsertLogEntry`.

  `InsertLogEntry` writes row by row and stops at the first failure.
  `Deliver` describes what a sequence of batches does to the table.
- `batch.dfy` (module `Batch`) holds the batching discipline:
  `Batches(xs, 100)` are the groups the monitor flushes.
- `monitor.dfy` (module `Monitor`) holds `monitorLogs`:
  - the `bufio.Reader.ReadString('\n')` loop;
  - the routing of one line (marker, parse, match, rewrite);
  - the buffer with its flush at 100 and its reset even when the insert
    fails;
  - the final flush of a non-empty rest.

  `MonitorLogs` is proved to hand the database exactly
  `Batches(Accepted(ReadLines(stream)), 100)`, and the table ends up as
  `Deliver` of those batches.
- `apilist.dfy` (module `ApiList`) holds `LoadAPIList` after the file is
  opened: the `bufio.Scanner` line loop that trims each line and collects
  the non-empty ones in a set.
- `ginline.dfy` (module `GinLine`) takes a line in Gin's access-log format
  through the whole route.

Two behaviours of the code worth stating plainly:

- A batch whose insert fails is still emptied (`entries = []*LogEntry{}`
  runs after the error is logged, main.go:137). That batch's remaining
  entries are lost.
- A batch is not one atomic multi-row write. `InsertLogEntry` issues one
  INSERT per entry and returns at the first error, so the rows before the
  failing one stay in the table.

## Model

| member | source | states |
|---|---|---|
| `Matcher.LongestMatch` | main.go:63-71 | The loop over the API set, in any order, returns "" or a member that prefixes the path, and no member that prefixes the path is longer. The result equals the order-independent reference `LongestPrefix`. |
| `Matcher.LongestPrefix` | main.go:63-71 | The reference match is a longest match: "" or a prefix from the set, and no matching member is longer. |
| `Matcher.LongestMatchUnique` | main.go:65-69 | Every result that satisfies the longest-match property is the same string, so the Go map's iteration order and tie-break cannot change the result. |
| `Matcher.NoMatch` | main.go:64-70 | The result is "" exactly when no non-empty member prefixes the path; an empty set always gives "". |
| `Matcher.EmptyEntryIgnored` | main.go:66 | The strict `len(api) > len(longestMatch)` test means adding "" to the set changes no result. |
| `Matcher.MostSpecificWins` | main.go:66-67 | A non-empty matching member at least as long as every other matching member is the result. |
| `Parser.MapFields` | main.go:41-59 | Success exactly when there are at least 7 fields; otherwise the error names the line. On success, Server and Program are the arguments, Date..Method are fields 0..5, and APIPath is field 6 with surrounding quotes trimmed. |
| `Parser.ParseLogWithAwk` | main.go:32-59 | No contract of its own: the awk output of the line plus the `echo` newline, split by `strings.Fields`, then `MapFields`. Characterised by `Parser.ParseLogWithAwkOfLine` and `Parser.ParseLogWithAwkTokens`. |
| `Parser.Records` | main.go:33-34 | No contract of its own: awk's records, the text split at each "\n", a final "\n" ending the last record. Used by `Parser.RecordsOfLine`. |
| `Parser.Selected` | main.go:33 | No contract of its own: columns 2, 4, 6, 8, 10, 12 and 13 of a record, "" past the last token. Characterised by `Parser.SelectedOfClean` and `Parser.SelectedOfLong`. |
| `Parser.AwkPrint` | main.go:33 | No contract of its own: the selected columns joined by one space and ended by "\n". Characterised by `Parser.FieldsOfBlankPrint` for the empty record, and for other records through `Text.FieldsOfJoin` and `Parser.FieldsSeenByGo`. |
| `Parser.AwkOutput` | main.go:33-36 | No contract of its own: `AwkPrint` of every record in turn. Characterised by `Parser.AwkOutputOfLine`. |
| `Parser.ParseLogWithAwkTokens` | main.go:32-59 | For a stream line whose awk tokens hold no other Go white space, parsing succeeds exactly when awk sees at least 13 tokens. The entry then holds tokens 2, 4, 6, 8, 10 and 12 and the unquoted token 13. |
| `Parser.ParseLogWithAwkOfLine` | main.go:33-41 | For a line as read from the stream, the fields Go sees are the pieces of the seven printed awk columns. |
| `Parser.FieldsSeenByGo` | main.go:33-41 | `echo` adds a second newline, giving awk an empty record. That record prints only separators, so Go's `strings.Fields` sees only the first record's columns. |
| `Parser.SelectedOfClean` | main.go:33 | awk prints an empty column past the last token, so Go sees seven fields exactly when the record has at least 13 tokens. |
| `Parser.SelectedOfLong` | main.go:33 | With 13 or more tokens, the printed columns are tokens 2, 4, 6, 8, 10, 12 and 13 in that order. |
| `Text.ContainsSpec` | main.go:116 | `Contains` finds the marker exactly when it starts at some position of the line. |
| `Text.Contains` | main.go:116 | No contract of its own: `strings.Contains` as a search from each start position. Characterised by `Text.ContainsSpec`. |
| `Text.TrimSpec` | main.go:44 | `Trim` removes a maximal run of cut characters from each end and keeps the middle untouched. |
| `Text.Trim` | main.go:44 | No contract of its own: `strings.Trim` as `TrimLeft` then `TrimRight`. Characterised by `Text.TrimSpec` and `Text.TrimUnique`. |
| `Text.TrimSpace` | main.go:220 | No contract of its own: `Trim` with Go's `unicode.IsSpace` set. Characterised through `Text.TrimSpec` and `Text.TrimIdempotent`. |
| `Text.TrimUnique` | main.go:44 | Any string that is a maximal trim of `s` equals `Trim(s)`; the characterisation determines the result. |
| `Text.TrimIdempotent` | main.go:220 | Trimming a trimmed string changes nothing. |
| `Text.TrimLeftSpec` | main.go:44 | TrimLeft drops exactly the leading cut characters and stops at a non-cut character. |
| `Text.TrimRightSpec` | main.go:44 | TrimRight drops exactly the trailing cut characters and stops at a non-cut character. |
| `Text.Fields` | main.go:41 | Every field is non-empty and holds no separator character. Which fields come out is given by `Text.FieldsOfSpaces`, `Text.FieldsOfToken` and `Text.FieldsAppend`. |
| `Text.FieldsOfJoin` | main.go:33-41 | Splitting values joined by a white-space separator, followed by trailing white space, gives the fields of each value in turn. |
| `Text.FieldsJoinRoundTrip` | main.go:33-41 | Splitting the joined tokens gives the tokens back. |
| `Text.FieldsAppend` | main.go:41 | Splitting distributes over a concatenation separated at the seam. |
| `Text.FieldsOfSpaces` | main.go:41 | A text made only of separators has no fields. |
| `Text.FieldsOfToken` | main.go:41 | A non-empty text without separators is its own single field. |
| `Sink.Database.Exec` | main.go:82 | One INSERT: the row is appended exactly when that statement succeeds, and the statement count grows by one. |
| `Sink.SuccessRun` | main.go:81-87 | The count of leading successes: every statement before it succeeds, and the one at it fails if it is in range. |
| `Sink.SuccessRunStops` | main.go:81-87 | A run of successes that ends in a failure or at the end is the SuccessRun. |
| `Sink.Insert` | main.go:74-89 | No contract of its own: the table and statement count after one `InsertLogEntry` call, written up to the first failing statement. Tied to the method by the ensures of `Sink.InsertLogEntry`. |
| `Sink.Deliver` | main.go:127-153 | No contract of its own: `Insert` applied to each flushed batch in order. Characterised by `Sink.DeliverSnoc`, `Sink.DeliverBounded` and `Sink.DeliverReliable`. |
| `Sink.InsertLogEntry` | main.go:74-89 | Rows are written in order up to the first failing statement and none after it. The call reports success exactly when every statement succeeded. The statement count includes the failing one. |
| `Sink.DeliverSnoc` | main.go:130-153 | One more flushed batch acts on the table exactly as one more InsertLogEntry call. |
| `Sink.DeliverBounded` | main.go:74-89 | The existing rows stay a prefix of the table. The rows gained are entries of the flushed batches, none more often than it was handed over (multiset inclusion). Rows never outnumber statements, and statements never outnumber flushed entries. |
| `Sink.DeliverReliable` | main.go:74-89 | When every statement succeeds, the table gains every flushed entry, once and in order. |
| `Batch.FlattenBatches` | main.go:127-153 | The batches, one after the other, are exactly the accepted entries. |
| `Batch.BatchSizes` | main.go:130-153 | Every batch but the last holds exactly the batch size. The last holds between one and the batch size, so no empty batch is flushed. |
| `Batch.BatchCount` | main.go:105-153 | N entries make ceil(N / 100) batches. |
| `Batch.BatchesOfFull` | main.go:130-153 | Full batches followed by a short remainder are what `Batches` gives for all of those entries; an empty remainder adds no batch. |
| `Batch.FlattenConcat` | main.go:127 | Concatenating batch lists concatenates their entries. |
| `Batch.Batches` | main.go:127-153 | No contract of its own: consecutive groups of the batch size, the last one shorter. Characterised by `Batch.FlattenBatches`, `Batch.BatchSizes` and `Batch.BatchCount`. |
| `Monitor.ReadLinesSplit` | main.go:107-114 | The lines handled are complete lines ending in their only "\n". Together they are the stream up to its last "\n"; only an unterminated tail is dropped. |
| `Monitor.ReadString` | main.go:108-114 | A line is returned with its "\n" and the rest of the stream after it; io.EOF comes exactly when no "\n" is left, with the unterminated rest as partial text. |
| `Monitor.ReadLines` | main.go:107-114 | No contract of its own: the lines the loop reads before io.EOF. Characterised by `Monitor.ReadLinesSplit` and `Monitor.ReadStep`. |
| `Monitor.ReadStep` | main.go:107-114 | Each ReadString call moves one line from the unread rest to the lines read. At io.EOF every line has been read. |
| `Monitor.RouteSpec` | main.go:116-141 | A line gives an entry exactly when it contains "GIN", parses, and some non-empty configured prefix matches its path. The entry is the parsed one with its path replaced by the longest match, every other field kept. |
| `Monitor.Route` | main.go:116-141 | No contract of its own: the marker test, parse and longest match of one line. Characterised by `Monitor.RouteSpec`. |
| `Monitor.Accepted` | main.go:107-143 | No contract of its own: the routed entries of the lines read, in order. Characterised by `Monitor.AcceptedFromLines`, `Monitor.CollectConcat` and `Monitor.AcceptedSnoc`. |
| `Monitor.RouteLine` | main.go:116-141 | The marker check, parse, LongestMatch call and path rewrite of the loop body compute `Route`. |
| `Monitor.AcceptedFromLines` | main.go:116-141 | At most one entry per line. Every accepted entry carries a configured non-empty prefix as its path and the monitor's server and program, and comes from a line through `Route`. |
| `Monitor.CollectConcat` | main.go:107-143 | Lines are handled independently: the entries of two stretches of the stream are the entries of each in turn. |
| `Monitor.AcceptedSnoc` | main.go:116-142 | One more line adds its routed entry, if any, at the end. |
| `Monitor.Push` | main.go:127-138 | Appending an entry flushes the buffer exactly when it reaches 100 and then empties it whatever the insert returned. Buffer and flushed batches together gain exactly that entry. |
| `Monitor.HandleLine` | main.go:116-142 | Handling one line adds its routed entry to the flushed-or-buffered entries, keeping full flushed batches and a buffer below 100. |
| `Monitor.Step` | main.go:107-143 | One turn of the read loop keeps the loop invariant, stops only at io.EOF after reading every line, and otherwise consumes input. |
| `Monitor.Drain` | main.go:145-153 | At end of stream a non-empty buffer is flushed as one last batch. An empty buffer causes no call. |
| `Monitor.MonitorLogs` | main.go:92-154 | The database receives exactly `Batches(Accepted(ReadLines(stream)), 100)`, in order. The table and statement count are those `Deliver` gives for those batches. |
| `Monitor.RunFlushes` | main.go:105-153 | Over a whole run, the flushed batches carry every accepted entry once and in order. There are ceil(N/100) batches; all but the last hold 100 and none is empty. |
| `Monitor.RunRows` | main.go:74-153 | Over a whole run, the table keeps its rows and gains only accepted entries, none more often than it was accepted (multiset inclusion), so at most one row per accepted entry. With a database that never fails, it gains all of them in order. |
| `Monitor.TwoHundredFifty` | main.go:105-153 | 250 accepted entries are flushed as batches of 100, 100 and 50. |
| `ApiList.LoadApiList` | main.go:209-231 | The loaded set is exactly `ApiSet` of the file's lines: every non-empty trimmed line. |
| `ApiList.ScanLines` | main.go:218-219 | No scanned line contains "\n". |
| `ApiList.ScanUnlines` | main.go:218-219 | Scanning a file written line by line gives the lines back, when no line holds "\n" or ends with "\r". |
| `ApiList.ScanUnlinesCRLF` | main.go:218-219 | Scanning a file whose lines end in "\r\n" gives the lines back without the "\r", when no line holds "\n". |
| `ApiList.DropCR` | main.go:218-219 | The scanned line is the text before "\n" with the trailing "\r", if any, removed; a line without a trailing "\r" is kept as it is. |
| `ApiList.ApiSet` | main.go:217-225 | No contract of its own: the set of non-empty trimmed lines. Characterised by `ApiList.ApiSetMembers`, `ApiList.ApiSetTrimmed` and `ApiList.ApiSetSize`. |
| `ApiList.ApiSetMembers` | main.go:219-224 | A key is in the set exactly when it is non-empty and some line trims to it; duplicate lines collapse to one key. |
| `ApiList.ApiSetTrimmed` | main.go:220-222 | The empty key never appears, and every key is already trimmed. |
| `ApiList.ApiSetSize` | main.go:217-225 | There are never more keys than lines. |
| `ApiList.ApiSetSnoc` | main.go:219-224 | One more line adds its trimmed text to the set, unless that text is empty. |
| `GinLine.GinParses` | main.go:32-59 | A Gin access-log line (the marker, then date, time, status, duration, client address and method between separator tokens, then the quoted path) parses into exactly those fields, with the path unquoted. |
| `GinLine.GinRoute` | main.go:116-141 | Such a line gives an entry exactly when some non-empty configured prefix matches its path; an empty entry in the list matches every path but never yields an entry. The entry holds the line's fields and the longest matching prefix. |
| `GinLine.GinHasMarker` | main.go:116 | Such a line contains the marker "GIN". |
| `GinLine.UnquotePath` | main.go:44 | Trimming `"path"` with the quote cutset gives the path back when it does not start or end with a quote. |
| `GinLine.SampleMatches` | main.go:63-71 | "/api/v1/users/42" matches "/api/v1/users" rather than "/api", and nothing in {"/api/v2"}. |

## Left out

- Running the shell and awk: `ParseLogWithAWK` is modelled as what `sh -c "echo '<line>' | awk ..."` prints.
  - Shell quoting is not modelled. The line is pasted between single quotes into `echo '<line>' | awk ...`. With an odd number of `'` in the line the quotes do not balance, `sh` fails, and the line is skipped as unparsed. With an even number, the stretches of the line between them reach `sh` unquoted: the shell strips the quotes, splits and globs those stretches, and runs any `$(...)`, backticks, `;` or `|` in them. The output then differs from `ParseLogWithAwk`, and a request path can run commands.
  - `echo`'s shell-dependent escapes and options (a leading `-n` or `-e`, `\c`, backslash sequences) are not modelled; `sh` is whichever shell the path finds.
  - A failing subprocess (`cmd.Output()` returning an error) is not modelled.
- Go strings are UTF-8 bytes; the model uses sequences of Unicode scalar values, which agree on valid UTF-8 text. awk's field splitting is taken as blanks and newline in the C locale.
- `Text.Contains` is stated through `Text.ContainsSpec` rather than carrying its own contract.
- I/O and errors outside the logic:
  - `supervisorctl` is not started; the stream is given as a string.
  - A read error other than io.EOF ends the process with `log.Fatalf`.
  - Opening the API list file and its errors are not modelled; the file's contents are given as a string.
  - `bufio.Scanner`'s 64 KiB token limit and its read errors are not modelled.
- The SQL text, the MySQL driver and connection, and `CleanOldLogs` (a DELETE every 24 hours in a goroutine) are not modelled. Whether each INSERT succeeds is an oracle on the database.
- Concurrency is not modelled: `main` runs one `monitorLogs` goroutine per program, all sharing one `*sql.DB`. The model covers one monitor on its own.
- Command-line flags, `strings.Split` of the program list, and all `log` output are not modelled.
