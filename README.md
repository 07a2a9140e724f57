# synapse-room-logger: the incremental export, modelled in Dafny

synapse-room-logger exports the messages of chosen Matrix rooms from a
Synapse homeserver's database into plain-text logs. There is one file per room
per UTC day, `<output_directory>/<room_name>_<YYYYMMDD>.log`, and one JSON line
per message. Each run remembers how far it got in a watermark, the reception
timestamp of the last message written. The watermark is kept in
`<output_directory>/.last_ts`. The next run fetches only messages received
after it.

This project models that export protocol and proves what it guarantees:

- `Events`: the record mapper. It turns an `m.room.message` event payload into
  the normalized record `{ts, origin_ts, origin, sender, event_id, room_id,
  message, url}`, or says which key is missing.
- `Calendar` and `Routing`: the router. It maps a millisecond timestamp to the
  UTC civil date in ISO 8601 basic format (`YYYYMMDD`) and builds the log
  file's path.
  - Dates are proleptic Gregorian day numbers, counted from 0001-01-01.
  - The date of a timestamp is day `floor(ts / 86400000)` after 1970-01-01.
  - Dates outside the years 1 to 9999 are an error, as in Python's `datetime`.
- `EventStore`: the events table as a sequence of rows, and the one query
  issued against it. The query keeps messages of the configured rooms
  received strictly after the watermark, ascending by reception time.
- `Export`: one extraction run as a pure function `Run` of the disk and the
  store. The disk holds the log files' text, the existing directories, the
  paths that may not be written, and the saved watermark. The lemmas state
  the checkpoint discipline:
  - the watermark moves past a row only once its line is written;
  - a run that fails leaves the saved watermark alone, so the rows it did not
    write are fetched again;
  - the saved watermark never decreases;
  - re-running with no new messages changes nothing;
  - within a run, each file receives its lines in reception order.
- `Logger`: the `SynapseRoomLogger` object as the program runs it. It is a
  class with the in-memory watermark `lastTsWritten` beside a `FileSystem`
  object, both updated in place.
  - `ReadLastTsWritten`, `WriteLastTsWritten` and `AppendLine` each state the
    exact state they leave.
  - `WriteRows` is the `for row in cur` loop. It is proved to compute
    `Export.ExportRows`.
  - `RequestMessages` is proved to leave exactly the state `Export.Run`
    describes, so every lemma about `Run` holds of it.

### Exceptions and outcomes

Outcomes follow the code. `request_messages` returns True (`Completed`) or
False (`ConnectionFailed`, `WriteFailed`), or an exception escapes it
(`Crashed`). The exceptions are:

- a missing payload key, or a payload that is not a JSON object;
- a room id absent from the configured room map;
- a date the date library cannot represent;
- a save failure.

The save failure needs a word. The error handlers of `write_last_ts_written`
name an undefined variable, so a state file that cannot be opened raises
instead of returning False. The model therefore treats an unwritable state
file as a crash of the run (`Crashed(CheckpointUnwritable)`).

Mapping faults are not caught in the row loop (synapse-room-logger.py:183-188):
a missing key, an unknown room or an unrepresentable date escapes
`request_messages` as an exception, and the model reports it as
`Crashed(fault)`.

### What is abstract

- The JSON serializer (`json.dumps`) is an arbitrary function
  `serialize: Record -> string`, fixed per logger.
- The database is a parameter `db: Option<seq<Row>>`. The value `None` means
  the connection fails.
- Logging produces no state and is omitted.

## Model

| member | source | states |
|---|---|---|
| Calendar.DateOf | synapse-room-logger.py:72 | the civil date of a day number is a valid Gregorian date whose day number is that number |
| Calendar.DateOfDayNumber | synapse-room-logger.py:72 | `DateOf` inverts the day numbering: every valid date is the date of its own day number |
| Calendar.DayNumberInjective | synapse-room-logger.py:72 | distinct valid dates have distinct day numbers |
| Calendar.YearBound | synapse-room-logger.py:72 | a date lies before year `y` exactly when its day number is below the first day of `y` |
| Calendar.DaysBeforeNextYear | synapse-room-logger.py:72 | the days before year `y + 1` are those before `y` plus the 365 or 366 days of `y` (Gregorian leap rule) |
| Calendar.Digits | synapse-room-logger.py:72 | a zero-padded field has exactly the requested width and only decimal digits |
| Calendar.DigitsRoundTrip | synapse-room-logger.py:72 | reading a zero-padded field back gives the number whenever it fits the width |
| Calendar.BasicFormat | synapse-room-logger.py:72 | `%Y%m%d` gives eight decimal digits for every date of years 1 to 9999 |
| Calendar.BasicFormatFields | synapse-room-logger.py:72 | `%Y%m%d` read back: the first four digits are the year, the next two the month, the last two the day |
| Calendar.BasicFormatInjective | synapse-room-logger.py:72 | different dates give different `%Y%m%d` strings |
| Calendar.BasicFormatExample | synapse-room-logger.py:72 | 2023-05-01 is written `20230501` |
| Events.ProcessMessageRow | synapse-room-logger.py:45-63 | mapping succeeds exactly when the payload is an object with origin_server_ts, origin, sender, event_id, room_id and content.body. Then `ts` is the row's reception time, the six fields are copied, and `url` is the content's url or absent. Otherwise the error is "not a JSON object" or names the first missing key, in the order the keys are read |
| Events.PayloadOf | synapse-room-logger.py:51-62 | the payload built from a record's fields has every field the mapper requires |
| Events.MapPayloadOfRecord | synapse-room-logger.py:51-62 | mapping loses nothing: the payload built from a record maps back to that record |
| Events.PayloadOfMappedRecord | synapse-room-logger.py:51-62 | every payload that maps is, on the fields read, the payload of its record |
| Events.ProcessMessageRowExample | synapse-room-logger.py:51-62 | a message without `url` received at 200 maps to a record with `ts` 200, `origin_ts` 100 and no url |
| Events.MissingBodyIsRejected | synapse-room-logger.py:60 | a content without `body` is rejected with the key `body` |
| Routing.EpochDayNumberIsUnixEpoch | synapse-room-logger.py:71-72 | day 719162 is 1970-01-01 and day 3652058 is 9999-12-31 |
| Routing.UtcDate | synapse-room-logger.py:72 | the UTC date of a millisecond timestamp exists exactly when floor(ts / 86400000) days after 1970-01-01 falls within years 1 to 9999, and then has that day number |
| Routing.UtcDateCountsFromEpoch | synapse-room-logger.py:71-72 | the UTC date lies floor(ts / 86400000) whole days after 1970-01-01 |
| Routing.TsToFilepath | synapse-room-logger.py:65-75 | a path exists exactly when the timestamp's date is representable |
| Routing.LogPathShape | synapse-room-logger.py:70-75 | for a representable date the path is exactly `<dir>/<room>_<YYYYMMDD>.log`, the date in basic format |
| Routing.LogPathDate | synapse-room-logger.py:70-75 | the eight characters after `<dir>/<room>_` are the `YYYYMMDD` date of the timestamp |
| Routing.SamePathIffSameDay | synapse-room-logger.py:70-75 | for one directory and room, two timestamps get the same file exactly when they fall on the same UTC day |
| Routing.TsToFilepathExample | synapse-room-logger.py:70-75 | every instant of 2023-05-01 UTC in room `general` goes to `/srv/logs/general_20230501.log` |
| Routing.DirNameOfLogPath | synapse-room-logger.py:70 | the directory of `<dir>/<name>` is `<dir>` when the name has no slash |
| Routing.LogFileInOutputDirectory | synapse-room-logger.py:70-75 | directly in the output directory: that is the directory a log file is opened in, for a room name without a slash |
| EventStore.Matches | synapse-room-logger.py:166-168 | the WHERE clause: the row's room is configured, it was received strictly after the watermark, and its type is `m.room.message`; EventStore.QueryMembership ties it to the query |
| EventStore.Filter | synapse-room-logger.py:166-168 | keeps each stored row exactly as often as it is stored when it matches the WHERE clause, and drops it otherwise |
| EventStore.Insert | synapse-room-logger.py:169 | inserting into a sorted sequence keeps it sorted and adds exactly the one row |
| EventStore.SortByTs | synapse-room-logger.py:169 | ORDER BY received_ts: the result is sorted and a permutation of its input |
| EventStore.Query | synapse-room-logger.py:161-170 | the fetched rows are sorted by reception time and are exactly the matching stored rows, with multiplicity |
| EventStore.QueryMembership | synapse-room-logger.py:166-168 | a row is fetched if and only if it is stored, in a configured room, an `m.room.message`, and received strictly after the watermark |
| EventStore.QueryAntitone | synapse-room-logger.py:167 | a later watermark fetches no row that an earlier one would not |
| EventStore.QueryEmpty | synapse-room-logger.py:161-170 | nothing is fetched when no stored row matches |
| EventStore.QueryPastLast | synapse-room-logger.py:167-169 | querying from the reception time of the last fetched row fetches nothing; with no rows fetched, the same holds from the same watermark |
| Export.Writable | synapse-room-logger.py:82-99 | opening a file for writing succeeds unless the parent directory is missing (FileNotFoundError) or writing is refused (PermissionError); Logger.SynapseRoomLogger.AppendLine is proved to succeed exactly then |
| Export.LoadedWatermark | synapse-room-logger.py:109-118 | the watermark a run starts from is the saved one, or 0 without a state file; Logger.SynapseRoomLogger.ReadLastTsWritten is proved to set exactly this |
| Export.RouteRow | synapse-room-logger.py:185-191 | one row through the mapper, the room lookup and the router; its meaning is stated by Export.RouteRowMeaning |
| Export.RouteRowMeaning | synapse-room-logger.py:185-191 | a row routes exactly when its payload maps, its room is configured and its date is representable. The routed record is the mapped one, with `ts` from the row and path from the router. Otherwise the fault names the first step that failed |
| Export.ExportRows | synapse-room-logger.py:183-206 | the per-row loop: route each row, stop on a fault or a refused append, otherwise append its line and move the watermark to its `ts`; its properties are stated by the four Export.Export… lemmas below, and Logger.SynapseRoomLogger.WriteRows is proved to compute it |
| Export.ExportWritesRoutedPrefix | synapse-room-logger.py:183-199 | the loop appends the records of a prefix of the fetched rows, each the routing of its row, to a writable file |
| Export.ExportStopsAtFirstFailure | synapse-room-logger.py:183-206 | the loop ends normally exactly when every row was appended. A refused write stops it at a routed row whose file cannot be opened. An exception stops it at the row whose routing fails, with that fault |
| Export.ExportWatermarkIsLastWritten | synapse-room-logger.py:193-199 | the in-memory watermark ends at the `ts` of the last appended record, or where it started |
| Export.ExportAppendsWritten | synapse-room-logger.py:193 | the loop's log files are its starting files with the appended lines, in order |
| Export.AppendTextAt | synapse-room-logger.py:82-85 | appending to one file adds the text to that file only, and creates no other file |
| Export.AppendAllContents | synapse-room-logger.py:183-199 | a sequence of appends changes each file by exactly the lines of the records routed to it, in order |
| Export.AppendAllCreatesOnlyNamed | synapse-room-logger.py:83 | a file exists after the appends exactly when it existed before or some record was routed to it |
| Export.RecordsForMembers | synapse-room-logger.py:183-199 | each record picked out for a file was written to that file |
| Export.RecordsForSorted | synapse-room-logger.py:169 | picking out one file's records keeps reception order |
| Export.Run | synapse-room-logger.py:154-222 | one run of `request_messages`: load the watermark, fetch, run the per-row loop, conclude; its properties are stated by the Export.Run… lemmas below, and Logger.SynapseRoomLogger.RequestMessages is proved to compute it |
| Export.Conclude | synapse-room-logger.py:200-208 | after the loop: a refused append fails the run, a fault crashes it, and a loop that ran out of rows saves the watermark, or crashes when the state file cannot be written |
| Export.ConcludeFacts | synapse-room-logger.py:200-208 | concluding keeps the fetched and appended rows and the loop's files; the run completes exactly when the loop ran out of rows and the state file is writable, and only then is the checkpoint changed, to the loop's watermark |
| Export.RunIsConclude | synapse-room-logger.py:172-208 | a connected run is the loop over the query at the loaded watermark, followed by Export.Conclude |
| Export.RunUnfold | synapse-room-logger.py:172-208 | a connected run fetches with the loaded watermark and runs the loop. It saves the final watermark, and completes, exactly when the loop ends normally and the state file is writable |
| Export.RunFetchesQuery | synapse-room-logger.py:172-181 | a run fetches the query's rows for the loaded watermark, or none when the database is unreachable. It appends a prefix of them, and all of them when it completes |
| Export.RunWrittenTs | synapse-room-logger.py:185-190 | each appended record carries the reception time of its row |
| Export.RunWritesFetchedPrefix | synapse-room-logger.py:183-199 | each appended record is the routing of its fetched row, and its file was writable |
| Export.RunCheckpointDiscipline | synapse-room-logger.py:193-208 | the final watermark is the `ts` of the last appended record, or the loaded one. Directories and permissions are untouched. The saved watermark changes only on completion, and then to the final watermark |
| Export.RunAppendsWritten | synapse-room-logger.py:193 | the files a run leaves are the old ones with the lines of its appended records, in order |
| Export.RunWritesEachFileInOrder | synapse-room-logger.py:183-199 | each file gains exactly the lines of the records routed to it, and their `ts` values are non-decreasing |
| Export.CheckpointNeverDecreases | synapse-room-logger.py:172-208 | the saved watermark never moves backwards, and is never removed |
| Export.NoRowSkipped | synapse-room-logger.py:193-208 | every fetched row was appended by the run, or is still past the saved watermark and is fetched again |
| Export.FailedRunIsRetried | synapse-room-logger.py:200-206 | a run that does not complete keeps the saved watermark, so the next run fetches the same rows again |
| Export.MalformedRowHaltsRun | synapse-room-logger.py:183-185 | a row whose payload cannot be mapped stops the run before its line; the run does not complete and saves nothing |
| Export.RunWithNothingNew | synapse-room-logger.py:179-208 | with nothing new in the store, a run appends nothing and saves the loaded watermark when the state file is writable. Otherwise it crashes at the save with the disk unchanged |
| Export.RerunChangesNothing | synapse-room-logger.py:172-208 | re-running after a completed run, against the same store, fetches and appends nothing and saves the same watermark: the disk is unchanged |
| Export.FetchedRoomsAreConfigured | synapse-room-logger.py:166-188 | every fetched row's room is configured, so a payload naming its own row's room never fails the room lookup |
| Logger.SynapseRoomLogger.constructor | synapse-room-logger.py:29-43 | the state file is `<output_directory>/.last_ts` |
| Logger.SynapseRoomLogger.ReadLastTsWritten | synapse-room-logger.py:101-124 | reports whether a state file exists, and sets the watermark to its value, or to 0 |
| Logger.SynapseRoomLogger.WriteLastTsWritten | synapse-room-logger.py:126-152 | saves the in-memory watermark exactly when the state file can be opened for writing, changing nothing else |
| Logger.SynapseRoomLogger.AppendLine | synapse-room-logger.py:77-99 | succeeds exactly when the file's directory exists and writing is permitted. Then it appends `line + "\n"` to that file (creating it) and changes nothing else; otherwise it changes nothing |
| Logger.SynapseRoomLogger.WriteRows | synapse-room-logger.py:183-206 | the per-row loop leaves the files, watermark and stop reason that `Export.ExportRows` gives, and changes nothing else |
| Logger.SynapseRoomLogger.RequestMessages | synapse-room-logger.py:154-222 | one run returns the outcome, leaves the disk and leaves the in-memory watermark that `Export.Run` gives |

## Left out

- psycopg2 is not modelled beyond a reachable or unreachable store.
  - Connecting, cursors and `conn.close` have no counterpart.
  - Only a failed connection is modelled (`db == None`). An error raised while
    the query runs is not.
  - An empty room map makes psycopg2 render `IN ()`, which the database
    rejects. The model's query then simply returns no rows.
- Events.ProcessMessageRow: payload fields are optional typed values, and
  "absent" is the only other state a field can be in. A key present with JSON
  `null` or with a value of another type cannot be represented. The source
  copies such a value as it is: `"content": {"body": null}` maps with
  `message` None and its line is written.
- JSON text is not modelled.
  - Payloads arrive already decoded: either an object with optional fields,
    or "not an object".
  - `content` is an object when present, so the `TypeError` raised when it is
    a non-object is not modelled.
  - `json.dumps` is an arbitrary function of the record.
- The state file is modelled as an optional integer. A state file whose text
  is not an integer raises `ValueError` in the source; the model has no such
  state.
  - An unreadable state file (a permission error on read) is not modelled
    either.
- Calendar.BasicFormat pads the year to four digits. glibc's `strftime` writes
  years below 1000 unpadded.
- UtcDate uses exact integer floor division where the source divides by 1000
  in floating point and rounds to microseconds. The model assumes that the
  rounding never carries a timestamp across midnight.
- EventStore.SortByTs breaks ties between equal reception times by store
  order. `ORDER BY e.received_ts` leaves that order open, and the database may
  return ties in another order on each execution. The model's query is one
  fixed function of the store.
- Export.FailedRunIsRetried: proves that the next run fetches the same
  sequence of rows. That relies on the query returning ties in the same order
  each time. The database promises only the same rows in `received_ts` order,
  so ties may come back reordered.
- Other file system errors are not modelled. Only a missing parent directory
  and a denied path make an open fail.
- Logging, the command-line interface (docopt), yaml configuration and `main`
  are not modelled. They affect no state of the export.
- `run_cron` and `run_daemon` are not modelled. They call `request_messages`
  once, or repeatedly whatever it returned, with a sleep between calls.
  Export.FailedRunIsRetried states what such a repeated call sees.
- The order of lines across runs is not modelled. A run that appended some
  lines and then fails re-appends those lines on the next run, so a file may
  hold duplicates. Only the order within one run is proved.
