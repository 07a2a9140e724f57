/**
 * The Extraction Run as a function of the disk and the event store: load the
 * watermark, fetch the rows received after it, route and append each row in
 * turn, and save the watermark only once every row is written. The imperative
 * logger in module Logger is proved to compute exactly `Run`; the lemmas here
 * state what the checkpoint discipline guarantees.
 */
module Export {
  import opened Wrappers
  import opened Events
  import opened Routing
  import opened EventStore

  /** The configured room map (room id to room name) and output directory. */
  datatype Config = Config(rooms: map<string, string>, outputDirectory: string)

  /** Where the watermark is kept: `<output_directory>/.last_ts`. */
  function StatePath(outputDirectory: string): string {
    outputDirectory + "/.last_ts"
  }

  /**
   * What the logger sees of the disk: the text of each log file, the existing
   * directories, the paths it may not open for writing, and the watermark held
   * by the state file (None when there is no state file).
   */
  datatype Disk = Disk(files: map<string, string>, dirs: set<string>, denied: set<string>,
                       checkpoint: Option<int>)

  /** Opening `path` for writing succeeds: its directory exists and writing there is permitted. */
  predicate Writable(disk: Disk, path: string) {
    DirName(path) in disk.dirs && path !in disk.denied
  }

  function Contents(files: map<string, string>, path: string): string {
    if path in files then files[path] else ""
  }

  /** Opening in append mode (creating the file if needed) and writing `text`. */
  function AppendText(files: map<string, string>, path: string, text: string): map<string, string> {
    files[path := Contents(files, path) + text]
  }

  /** The watermark a run starts from: the saved one, or 0 when there is none. */
  function LoadedWatermark(checkpoint: Option<int>): int {
    match checkpoint
    case Some(ts) => ts
    case None => 0
  }

  /** The faults that escape a run as exceptions. */
  datatype Fault =
    | Malformed(error: MappingError)      // the payload lacks a required key
    | UnknownRoom(roomId: string)         // the payload's room is not configured
    | DateOutOfRange(ts: int)             // the date library cannot represent the day
    | CheckpointUnwritable                // the state file cannot be opened for writing

  /** A record together with the log file it goes to. */
  datatype Routed = Routed(path: string, record: Record)

  /** Map a fetched row, look up its room name and compute its log file. */
  function RouteRow(cfg: Config, row: Row): Result<Routed, Fault> {
    match ProcessMessageRow(row.receivedTs, row.payload)
    case Failure(e) => Failure(Malformed(e))
    case Success(record) =>
      if record.roomId !in cfg.rooms then Failure(UnknownRoom(record.roomId))
      else
        match TsToFilepath(cfg.outputDirectory, record.ts, cfg.rooms[record.roomId])
        case None => Failure(DateOutOfRange(record.ts))
        case Some(path) => Success(Routed(path, record))
  }

  /**
   * A row routes exactly when its payload maps, its room is configured and its
   * date is representable; the routed record is the mapped one, and its path
   * is the log file of its room and reception day. Otherwise the fault names
   * the first of these steps that fails.
   */
  lemma RouteRowMeaning(cfg: Config, row: Row)
    ensures var r := RouteRow(cfg, row);
      var m := ProcessMessageRow(row.receivedTs, row.payload);
      && (r.Success? <==> m.Success? && m.value.roomId in cfg.rooms && UtcDate(row.receivedTs).Some?)
      && (r.Success? ==>
            && m == Success(r.value.record)
            && r.value.record.ts == row.receivedTs
            && TsToFilepath(cfg.outputDirectory, row.receivedTs, cfg.rooms[r.value.record.roomId]) == Some(r.value.path))
      && (m.Failure? ==> r == Failure(Malformed(m.error)))
      && (m.Success? && m.value.roomId !in cfg.rooms ==> r == Failure(UnknownRoom(m.value.roomId)))
      && (m.Success? && m.value.roomId in cfg.rooms && UtcDate(row.receivedTs).None? ==>
            r == Failure(DateOutOfRange(row.receivedTs)))
  {
  }

  /** The text one record adds to its log file. */
  function Line(serialize: Record -> string, record: Record): string {
    serialize(record) + "\n"
  }

  /** How the per-row loop ends: the rows ran out, an append was refused, or an exception. */
  datatype Halt = Exhausted | WriteRefused | Raised(fault: Fault)

  /** The state when the per-row loop ends, with the records it appended, in order. */
  datatype Progress = Progress(files: map<string, string>, watermark: int, written: seq<Routed>, halt: Halt)

  /**
   * The per-row loop over `rows`, starting from log files `files` and in-memory
   * watermark `watermark`; the watermark moves to a row's `ts` only after that
   * row's line was appended.
   */
  function ExportRows(cfg: Config, serialize: Record -> string, disk: Disk, rows: seq<Row>,
                      files: map<string, string>, watermark: int): Progress
    decreases |rows|
  {
    if rows == [] then Progress(files, watermark, [], Exhausted)
    else
      match RouteRow(cfg, rows[0])
      case Failure(f) => Progress(files, watermark, [], Raised(f))
      case Success(w) =>
        if !Writable(disk, w.path) then Progress(files, watermark, [], WriteRefused)
        else
          var p := ExportRows(cfg, serialize, disk, rows[1..],
                              AppendText(files, w.path, Line(serialize, w.record)), w.record.ts);
          p.(written := [w] + p.written)
  }

  /** The log files after appending the lines of `written`, in order. */
  function AppendAll(files: map<string, string>, written: seq<Routed>, serialize: Record -> string): map<string, string>
    decreases |written|
  {
    if written == [] then files
    else AppendAll(AppendText(files, written[0].path, Line(serialize, written[0].record)), written[1..], serialize)
  }

  /** The records of `written` that went to `path`, in order. */
  function RecordsFor(written: seq<Routed>, path: string): seq<Record> {
    if written == [] then []
    else (if written[0].path == path then [written[0].record] else []) + RecordsFor(written[1..], path)
  }

  /** The text a sequence of records makes, one line each. */
  function Lines(records: seq<Record>, serialize: Record -> string): string {
    if records == [] then "" else Line(serialize, records[0]) + Lines(records[1..], serialize)
  }

  predicate RecordsSortedByTs(records: seq<Record>) {
    forall i, j :: 0 <= i < j < |records| ==> records[i].ts <= records[j].ts
  }

  predicate WrittenSortedByTs(written: seq<Routed>) {
    forall i, j :: 0 <= i < j < |written| ==> written[i].record.ts <= written[j].record.ts
  }

  /**
   * The loop appends the records of a prefix of `rows`, each the routing of
   * its row, to a writable file.
   */
  lemma {:induction false} ExportWritesRoutedPrefix(cfg: Config, serialize: Record -> string, disk: Disk,
                                                    rows: seq<Row>, files: map<string, string>, watermark: int)
    ensures var p := ExportRows(cfg, serialize, disk, rows, files, watermark);
      && |p.written| <= |rows|
      && (forall k :: 0 <= k < |p.written| ==>
            RouteRow(cfg, rows[k]) == Success(p.written[k]) && Writable(disk, p.written[k].path))
    decreases |rows|
  {
    if rows != [] && RouteRow(cfg, rows[0]).Success? {
      var w := RouteRow(cfg, rows[0]).value;
      if Writable(disk, w.path) {
        var files' := AppendText(files, w.path, Line(serialize, w.record));
        ExportWritesRoutedPrefix(cfg, serialize, disk, rows[1..], files', w.record.ts);
        var q := ExportRows(cfg, serialize, disk, rows[1..], files', w.record.ts);
        var p := ExportRows(cfg, serialize, disk, rows, files, watermark);
        assert p.written == [w] + q.written;
        forall k | 0 < k < |p.written|
          ensures RouteRow(cfg, rows[k]) == Success(p.written[k]) && Writable(disk, p.written[k].path)
        {
          assert p.written[k] == q.written[k - 1] && rows[k] == rows[1..][k - 1];
        }
      }
    }
  }

  /**
   * The loop stops at the end of `rows`, or at the first row that cannot be
   * routed or whose file cannot be opened, for that row's reason.
   */
  lemma {:induction false} ExportStopsAtFirstFailure(cfg: Config, serialize: Record -> string, disk: Disk,
                                                     rows: seq<Row>, files: map<string, string>, watermark: int)
    ensures var p := ExportRows(cfg, serialize, disk, rows, files, watermark);
      && |p.written| <= |rows|
      && (p.halt == Exhausted <==> |p.written| == |rows|)
      && (p.halt == WriteRefused ==>
            |p.written| < |rows| && RouteRow(cfg, rows[|p.written|]).Success?
            && !Writable(disk, RouteRow(cfg, rows[|p.written|]).value.path))
      && (p.halt.Raised? ==>
            |p.written| < |rows| && RouteRow(cfg, rows[|p.written|]) == Failure(p.halt.fault))
    decreases |rows|
  {
    if rows != [] && RouteRow(cfg, rows[0]).Success? {
      var w := RouteRow(cfg, rows[0]).value;
      if Writable(disk, w.path) {
        var files' := AppendText(files, w.path, Line(serialize, w.record));
        ExportStopsAtFirstFailure(cfg, serialize, disk, rows[1..], files', w.record.ts);
        var q := ExportRows(cfg, serialize, disk, rows[1..], files', w.record.ts);
        var p := ExportRows(cfg, serialize, disk, rows, files, watermark);
        assert p.written == [w] + q.written && p.halt == q.halt;
        if !p.halt.Exhausted? {
          assert rows[|p.written|] == rows[1..][|q.written|];
        }
      }
    }
  }

  /** The in-memory watermark ends at the `ts` of the last appended record, or where it started. */
  lemma {:induction false} ExportWatermarkIsLastWritten(cfg: Config, serialize: Record -> string, disk: Disk,
                                                        rows: seq<Row>, files: map<string, string>, watermark: int)
    ensures var p := ExportRows(cfg, serialize, disk, rows, files, watermark);
      p.watermark == if p.written == [] then watermark else p.written[|p.written| - 1].record.ts
    decreases |rows|
  {
    if rows != [] && RouteRow(cfg, rows[0]).Success? {
      var w := RouteRow(cfg, rows[0]).value;
      if Writable(disk, w.path) {
        var files' := AppendText(files, w.path, Line(serialize, w.record));
        ExportWatermarkIsLastWritten(cfg, serialize, disk, rows[1..], files', w.record.ts);
        ExportRowsStep(cfg, serialize, disk, rows, files, watermark);
      }
    }
  }

  /** One step of the loop: a routed, writable first row is appended and the rest continue from there. */
  lemma ExportRowsStep(cfg: Config, serialize: Record -> string, disk: Disk,
                       rows: seq<Row>, files: map<string, string>, watermark: int)
    requires rows != [] && RouteRow(cfg, rows[0]).Success? && Writable(disk, RouteRow(cfg, rows[0]).value.path)
    ensures var w := RouteRow(cfg, rows[0]).value;
      var q := ExportRows(cfg, serialize, disk, rows[1..], AppendText(files, w.path, Line(serialize, w.record)), w.record.ts);
      ExportRows(cfg, serialize, disk, rows, files, watermark) == q.(written := [w] + q.written)
  {
  }

  /** The log files the loop leaves are its starting files with the appended lines, in order. */
  lemma {:induction false} ExportAppendsWritten(cfg: Config, serialize: Record -> string, disk: Disk,
                                                rows: seq<Row>, files: map<string, string>, watermark: int)
    ensures var p := ExportRows(cfg, serialize, disk, rows, files, watermark);
      p.files == AppendAll(files, p.written, serialize)
    decreases |rows|
  {
    if rows != [] && RouteRow(cfg, rows[0]).Success? {
      var w := RouteRow(cfg, rows[0]).value;
      if Writable(disk, w.path) {
        var files' := AppendText(files, w.path, Line(serialize, w.record));
        ExportAppendsWritten(cfg, serialize, disk, rows[1..], files', w.record.ts);
        var p := ExportRows(cfg, serialize, disk, rows, files, watermark);
        assert p.written[0] == w && p.written[1..] == ExportRows(cfg, serialize, disk, rows[1..], files', w.record.ts).written;
      }
    }
  }

  lemma AppendTextAt(files: map<string, string>, target: string, text: string, path: string)
    ensures Contents(AppendText(files, target, text), path)
         == if target == path then Contents(files, path) + text else Contents(files, path)
    ensures path in AppendText(files, target, text) <==> path in files || target == path
  {
  }

  /**
   * Appending a sequence of records changes each file by exactly the lines of
   * the records routed to it, in order.
   */
  lemma {:induction false} AppendAllContents(files: map<string, string>, written: seq<Routed>,
                                             serialize: Record -> string, path: string)
    ensures Contents(AppendAll(files, written, serialize), path)
         == Contents(files, path) + Lines(RecordsFor(written, path), serialize)
    decreases |written|
  {
    if written != [] {
      var w := written[0];
      var line := Line(serialize, w.record);
      var files' := AppendText(files, w.path, line);
      AppendAllContents(files', written[1..], serialize, path);
      AppendTextAt(files, w.path, line, path);
      LinesOfRecordsFor(written, path, serialize);
      if w.path == path {
        Associative(Contents(files, path), line, Lines(RecordsFor(written[1..], path), serialize));
      }
    }
  }

  lemma LinesOfRecordsFor(written: seq<Routed>, path: string, serialize: Record -> string)
    requires written != []
    ensures Lines(RecordsFor(written, path), serialize)
         == (if written[0].path == path then Line(serialize, written[0].record) else "")
            + Lines(RecordsFor(written[1..], path), serialize)
  {
    var later := RecordsFor(written[1..], path);
    if written[0].path == path {
      assert ([written[0].record] + later)[1..] == later;
    } else {
      assert RecordsFor(written, path) == later;
      assert "" + Lines(later, serialize) == Lines(later, serialize);
    }
  }

  lemma Associative(a: string, b: string, c: string)
    ensures (a + b) + c == a + (b + c)
  {
  }

  /** Appending creates no file except those the records are routed to. */
  lemma {:induction false} AppendAllCreatesOnlyNamed(files: map<string, string>, written: seq<Routed>,
                                                     serialize: Record -> string, path: string)
    ensures path in AppendAll(files, written, serialize) <==> path in files || RecordsFor(written, path) != []
    decreases |written|
  {
    if written != [] {
      var w := written[0];
      var line := Line(serialize, w.record);
      AppendAllCreatesOnlyNamed(AppendText(files, w.path, line), written[1..], serialize, path);
      AppendTextAt(files, w.path, line, path);
    }
  }

  /** Each record picked out for a file is one of the records written to that file. */
  lemma {:induction false} RecordsForMembers(written: seq<Routed>, path: string)
    ensures forall r :: r in RecordsFor(written, path) ==>
      exists k :: 0 <= k < |written| && written[k].record == r && written[k].path == path
    decreases |written|
  {
    if written != [] {
      RecordsForMembers(written[1..], path);
      forall r | r in RecordsFor(written[1..], path)
        ensures exists k :: 0 <= k < |written| && written[k].record == r && written[k].path == path
      {
        var k :| 0 <= k < |written[1..]| && written[1..][k].record == r && written[1..][k].path == path;
        assert written[k + 1] == written[1..][k];
      }
    }
  }

  /** Picking out one file's records keeps their order. */
  lemma {:induction false} RecordsForSorted(written: seq<Routed>, path: string)
    requires WrittenSortedByTs(written)
    ensures RecordsSortedByTs(RecordsFor(written, path))
    decreases |written|
  {
    if written != [] {
      var rest := RecordsFor(written[1..], path);
      assert WrittenSortedByTs(written[1..]) by {
        forall i, j | 0 <= i < j < |written[1..]|
          ensures written[1..][i].record.ts <= written[1..][j].record.ts
        {
          assert written[1..][i] == written[i + 1] && written[1..][j] == written[j + 1];
        }
      }
      RecordsForSorted(written[1..], path);
      RecordsForMembers(written[1..], path);
      if written[0].path == path {
        var all := [written[0].record] + rest;
        forall i, j | 0 <= i < j < |all|
          ensures all[i].ts <= all[j].ts
        {
          if i == 0 {
            assert all[j] in rest;
            var k :| 0 <= k < |written[1..]| && written[1..][k].record == all[j];
            assert written[k + 1] == written[1..][k];
          } else {
            assert all[i] == rest[i - 1] && all[j] == rest[j - 1];
          }
        }
      }
    }
  }

  // ---------------------------------------------------------------------------
  // One whole run

  /**
   * How a run ends: it returns True (Completed) or False (ConnectionFailed,
   * WriteFailed), or an exception escapes it (Crashed).
   */
  datatype RunResult = Completed | ConnectionFailed | WriteFailed | Crashed(fault: Fault)

  /** The outcome of a run, the disk it leaves, its final in-memory watermark, and what it fetched and appended. */
  datatype RunState = RunState(result: RunResult, disk: Disk, watermark: int,
                               fetched: seq<Row>, written: seq<Routed>)

  /**
   * One Extraction Run against `disk` and the event store `db` (None when the
   * database cannot be reached).
   */
  function Run(cfg: Config, serialize: Record -> string, disk: Disk, db: Option<seq<Row>>): RunState {
    var loaded := LoadedWatermark(disk.checkpoint);
    match db
    case None => RunState(ConnectionFailed, disk, loaded, [], [])
    case Some(table) =>
      var rows := Query(table, cfg.rooms.Keys, loaded);
      Conclude(cfg, disk, rows, ExportRows(cfg, serialize, disk, rows, disk.files, loaded))
  }

  /** After the loop: save the watermark if every row was written, and report the outcome. */
  function Conclude(cfg: Config, disk: Disk, rows: seq<Row>, p: Progress): RunState {
    var after := disk.(files := p.files);
    match p.halt
    case WriteRefused => RunState(WriteFailed, after, p.watermark, rows, p.written)
    case Raised(f) => RunState(Crashed(f), after, p.watermark, rows, p.written)
    case Exhausted =>
      if Writable(disk, StatePath(cfg.outputDirectory)) then
        RunState(Completed, after.(checkpoint := Some(p.watermark)), p.watermark, rows, p.written)
      else
        RunState(Crashed(CheckpointUnwritable), after, p.watermark, rows, p.written)
  }

  lemma RunIsConclude(cfg: Config, serialize: Record -> string, disk: Disk, table: seq<Row>)
    ensures var loaded := LoadedWatermark(disk.checkpoint);
      var rows := Query(table, cfg.rooms.Keys, loaded);
      Run(cfg, serialize, disk, Some(table)) == Conclude(cfg, disk, rows, ExportRows(cfg, serialize, disk, rows, disk.files, loaded))
  {
  }

  /** `Run` in terms of the loop it performs, when the database is reachable. */
  lemma RunUnfold(cfg: Config, serialize: Record -> string, disk: Disk, table: seq<Row>)
    ensures var st := Run(cfg, serialize, disk, Some(table));
      var loaded := LoadedWatermark(disk.checkpoint);
      var rows := Query(table, cfg.rooms.Keys, loaded);
      var p := ExportRows(cfg, serialize, disk, rows, disk.files, loaded);
      && st.fetched == rows
      && st.written == p.written && st.watermark == p.watermark
      && st.disk == disk.(files := p.files, checkpoint := st.disk.checkpoint)
      && (st.result == Completed <==> p.halt == Exhausted && Writable(disk, StatePath(cfg.outputDirectory)))
      && st.disk.checkpoint == (if st.result == Completed then Some(p.watermark) else disk.checkpoint)
  {
    var loaded := LoadedWatermark(disk.checkpoint);
    var rows := Query(table, cfg.rooms.Keys, loaded);
    RunIsConclude(cfg, serialize, disk, table);
    ConcludeFacts(cfg, disk, rows, ExportRows(cfg, serialize, disk, rows, disk.files, loaded));
  }

  lemma ConcludeFacts(cfg: Config, disk: Disk, rows: seq<Row>, p: Progress)
    ensures var st := Conclude(cfg, disk, rows, p);
      && st.fetched == rows
      && st.written == p.written && st.watermark == p.watermark
      && st.disk == disk.(files := p.files, checkpoint := st.disk.checkpoint)
      && (st.result == Completed <==> p.halt == Exhausted && Writable(disk, StatePath(cfg.outputDirectory)))
      && st.disk.checkpoint == (if st.result == Completed then Some(p.watermark) else disk.checkpoint)
  {
  }

  /**
   * A run fetches the rows the query returns for the loaded watermark (nothing
   * when the database cannot be reached), appends the records of a prefix of
   * them, each with `ts` equal to its row's reception time, and all of them
   * when it completes.
   */
  lemma RunFetchesQuery(cfg: Config, serialize: Record -> string, disk: Disk, db: Option<seq<Row>>)
    ensures var st := Run(cfg, serialize, disk, db);
      && st.fetched == (if db.Some? then Query(db.value, cfg.rooms.Keys, LoadedWatermark(disk.checkpoint)) else [])
      && |st.written| <= |st.fetched|
      && (st.result == Completed ==> |st.written| == |st.fetched|)
  {
    if db.Some? {
      RunUnfold(cfg, serialize, disk, db.value);
      var st := Run(cfg, serialize, disk, db);
      ExportStopsAtFirstFailure(cfg, serialize, disk, st.fetched, disk.files, LoadedWatermark(disk.checkpoint));
    }
  }

  /** Each appended record carries the reception time of the row it came from. */
  lemma RunWrittenTs(cfg: Config, serialize: Record -> string, disk: Disk, db: Option<seq<Row>>)
    ensures var st := Run(cfg, serialize, disk, db);
      && |st.written| <= |st.fetched|
      && forall k :: 0 <= k < |st.written| ==> st.written[k].record.ts == st.fetched[k].receivedTs
  {
    var st := Run(cfg, serialize, disk, db);
    RunWritesFetchedPrefix(cfg, serialize, disk, db);
    forall k | 0 <= k < |st.written|
      ensures st.written[k].record.ts == st.fetched[k].receivedTs
    {
      RouteRowMeaning(cfg, st.fetched[k]);
    }
  }

  /** Each appended record is what routing its fetched row gives, and its log file was writable. */
  lemma RunWritesFetchedPrefix(cfg: Config, serialize: Record -> string, disk: Disk, db: Option<seq<Row>>)
    ensures var st := Run(cfg, serialize, disk, db);
      && |st.written| <= |st.fetched|
      && (forall k :: 0 <= k < |st.written| ==>
            RouteRow(cfg, st.fetched[k]) == Success(st.written[k]) && Writable(disk, st.written[k].path))
  {
    if db.Some? {
      RunUnfold(cfg, serialize, disk, db.value);
      var st := Run(cfg, serialize, disk, db);
      ExportWritesRoutedPrefix(cfg, serialize, disk, st.fetched, disk.files, LoadedWatermark(disk.checkpoint));
    }
  }

  /**
   * The saved watermark changes only when the run completes, and then to the
   * in-memory watermark, which is the `ts` of the last appended record (or the
   * loaded watermark when nothing was fetched).
   */
  lemma RunCheckpointDiscipline(cfg: Config, serialize: Record -> string, disk: Disk, db: Option<seq<Row>>)
    ensures var st := Run(cfg, serialize, disk, db);
      && st.watermark == (if st.written == [] then LoadedWatermark(disk.checkpoint)
                          else st.written[|st.written| - 1].record.ts)
      && st.disk.dirs == disk.dirs && st.disk.denied == disk.denied
      && (st.result != Completed ==> st.disk.checkpoint == disk.checkpoint)
      && (st.result == Completed ==> st.disk.checkpoint == Some(st.watermark))
  {
    if db.Some? {
      RunUnfold(cfg, serialize, disk, db.value);
      var st := Run(cfg, serialize, disk, db);
      ExportWatermarkIsLastWritten(cfg, serialize, disk, st.fetched, disk.files, LoadedWatermark(disk.checkpoint));
    }
  }

  /** The log files a run leaves are the old ones with the lines of its appended records, in order. */
  lemma RunAppendsWritten(cfg: Config, serialize: Record -> string, disk: Disk, db: Option<seq<Row>>)
    ensures var st := Run(cfg, serialize, disk, db);
      st.disk.files == AppendAll(disk.files, st.written, serialize)
  {
    if db.Some? {
      RunUnfold(cfg, serialize, disk, db.value);
      var st := Run(cfg, serialize, disk, db);
      ExportAppendsWritten(cfg, serialize, disk, st.fetched, disk.files, LoadedWatermark(disk.checkpoint));
    }
  }

  /**
   * Within a run, each log file receives exactly the lines of the records
   * routed to it, in non-decreasing `ts` order.
   */
  lemma RunWritesEachFileInOrder(cfg: Config, serialize: Record -> string, disk: Disk,
                                 db: Option<seq<Row>>, path: string)
    ensures var st := Run(cfg, serialize, disk, db);
      && Contents(st.disk.files, path) == Contents(disk.files, path) + Lines(RecordsFor(st.written, path), serialize)
      && RecordsSortedByTs(RecordsFor(st.written, path))
  {
    var st := Run(cfg, serialize, disk, db);
    RunFetchesQuery(cfg, serialize, disk, db);
    RunWrittenTs(cfg, serialize, disk, db);
    RunAppendsWritten(cfg, serialize, disk, db);
    AppendAllContents(disk.files, st.written, serialize, path);
    assert SortedByTs(st.fetched);
    assert WrittenSortedByTs(st.written) by {
      forall i, j | 0 <= i < j < |st.written|
        ensures st.written[i].record.ts <= st.written[j].record.ts
      {
        assert st.fetched[i].receivedTs <= st.fetched[j].receivedTs;
      }
    }
    RecordsForSorted(st.written, path);
  }

  /** The saved watermark never moves backwards, and a saved watermark is never removed. */
  lemma CheckpointNeverDecreases(cfg: Config, serialize: Record -> string, disk: Disk, db: Option<seq<Row>>)
    ensures var st := Run(cfg, serialize, disk, db);
      && LoadedWatermark(disk.checkpoint) <= LoadedWatermark(st.disk.checkpoint)
      && (disk.checkpoint.Some? ==> st.disk.checkpoint.Some? && disk.checkpoint.value <= st.disk.checkpoint.value)
  {
    var st := Run(cfg, serialize, disk, db);
    RunFetchesQuery(cfg, serialize, disk, db);
    RunWrittenTs(cfg, serialize, disk, db);
    RunCheckpointDiscipline(cfg, serialize, disk, db);
    if st.written != [] {
      var last := |st.written| - 1;
      QueryMembership(db.value, cfg.rooms.Keys, LoadedWatermark(disk.checkpoint), st.fetched[last]);
    }
  }

  /**
   * No row is lost: every row a run fetched was either appended by it or is
   * still received after the saved watermark, so the next run fetches it again.
   */
  lemma NoRowSkipped(cfg: Config, serialize: Record -> string, disk: Disk, table: seq<Row>, r: Row)
    requires r in Query(table, cfg.rooms.Keys, LoadedWatermark(disk.checkpoint))
    ensures var st := Run(cfg, serialize, disk, Some(table));
      || (exists k :: 0 <= k < |st.written| && k < |st.fetched| && st.fetched[k] == r)
      || r in Query(table, cfg.rooms.Keys, LoadedWatermark(st.disk.checkpoint))
  {
    var st := Run(cfg, serialize, disk, Some(table));
    RunFetchesQuery(cfg, serialize, disk, Some(table));
    RunCheckpointDiscipline(cfg, serialize, disk, Some(table));
  }

  /**
   * A run that does not complete leaves the saved watermark alone, so the next
   * run against the same store fetches exactly the same rows again, including
   * the ones this run already appended.
   */
  lemma FailedRunIsRetried(cfg: Config, serialize: Record -> string, disk: Disk, table: seq<Row>)
    requires Run(cfg, serialize, disk, Some(table)).result != Completed
    ensures var st := Run(cfg, serialize, disk, Some(table));
      && st.disk.checkpoint == disk.checkpoint
      && Run(cfg, serialize, st.disk, Some(table)).fetched == st.fetched
  {
    var st := Run(cfg, serialize, disk, Some(table));
    RunFetchesQuery(cfg, serialize, disk, Some(table));
    RunCheckpointDiscipline(cfg, serialize, disk, Some(table));
    RunFetchesQuery(cfg, serialize, st.disk, Some(table));
  }

  /** A row whose payload cannot be mapped stops the run before its line and before any checkpoint. */
  lemma MalformedRowHaltsRun(cfg: Config, serialize: Record -> string, disk: Disk, table: seq<Row>, k: nat)
    requires var rows := Query(table, cfg.rooms.Keys, LoadedWatermark(disk.checkpoint));
      k < |rows| && ProcessMessageRow(rows[k].receivedTs, rows[k].payload).Failure?
    ensures var st := Run(cfg, serialize, disk, Some(table));
      && st.result != Completed
      && st.disk.checkpoint == disk.checkpoint
      && |st.written| <= k
  {
    RunFetchesQuery(cfg, serialize, disk, Some(table));
    RunWritesFetchedPrefix(cfg, serialize, disk, Some(table));
    RunCheckpointDiscipline(cfg, serialize, disk, Some(table));
  }

  /**
   * Re-running after a completed run, with no new rows in the store, appends
   * nothing and saves the same watermark: the disk is left exactly as it was.
   */
  lemma RerunChangesNothing(cfg: Config, serialize: Record -> string, disk: Disk, table: seq<Row>)
    requires Run(cfg, serialize, disk, Some(table)).result == Completed
    ensures var st := Run(cfg, serialize, disk, Some(table));
      Run(cfg, serialize, st.disk, Some(table)) == RunState(Completed, st.disk, st.watermark, [], [])
  {
    var st := Run(cfg, serialize, disk, Some(table));
    RunFetchesQuery(cfg, serialize, disk, Some(table));
    RunWrittenTs(cfg, serialize, disk, Some(table));
    RunCheckpointDiscipline(cfg, serialize, disk, Some(table));
    RunUnfold(cfg, serialize, disk, table);
    QueryPastLast(table, cfg.rooms.Keys, LoadedWatermark(disk.checkpoint));
    RunWithNothingNew(cfg, serialize, st.disk, table);
  }

  /**
   * With no new messages in the store, a run appends nothing, and saves the
   * watermark it loaded when the state file is writable.
   */
  lemma RunWithNothingNew(cfg: Config, serialize: Record -> string, disk: Disk, table: seq<Row>)
    requires Query(table, cfg.rooms.Keys, LoadedWatermark(disk.checkpoint)) == []
    ensures var loaded := LoadedWatermark(disk.checkpoint);
      Run(cfg, serialize, disk, Some(table))
        == if Writable(disk, StatePath(cfg.outputDirectory))
           then RunState(Completed, disk.(checkpoint := Some(loaded)), loaded, [], [])
           else RunState(Crashed(CheckpointUnwritable), disk, loaded, [], [])
  {
    var loaded := LoadedWatermark(disk.checkpoint);
    assert ExportRows(cfg, serialize, disk, [], disk.files, loaded) == Progress(disk.files, loaded, [], Exhausted);
    RunUnfold(cfg, serialize, disk, table);
  }

  /**
   * Every fetched row belongs to a configured room, so when a payload names the
   * same room as its row, looking up the room name cannot fail.
   */
  lemma FetchedRoomsAreConfigured(cfg: Config, table: seq<Row>, after: int, r: Row)
    requires r in Query(table, cfg.rooms.Keys, after)
    requires r.payload.Event? && r.payload.roomId == Some(r.roomId)
    ensures r.roomId in cfg.rooms
    ensures !RouteRow(cfg, r).Failure? || !RouteRow(cfg, r).error.UnknownRoom?
  {
    QueryMembership(table, cfg.rooms.Keys, after, r);
  }
}
