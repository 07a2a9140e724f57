/**
 * The logger object as the program runs it: a class whose in-memory watermark
 * `lastTsWritten` and whose file system are updated in place, one appended
 * line at a time. `RequestMessages` is proved to leave exactly the state that
 * `Export.Run` describes, so every property proved of `Run` holds of it.
 */
module Logger {
  import opened Wrappers
  import opened Events
  import opened Routing
  import opened EventStore
  import opened Export

  /** The files, directories and permissions the logger reads and writes. */
  class FileSystem {
    var files: map<string, string>
    var dirs: set<string>
    var denied: set<string>
    var checkpoint: Option<int>

    constructor (disk: Disk)
      ensures Snapshot() == disk
    {
      files := disk.files;
      dirs := disk.dirs;
      denied := disk.denied;
      checkpoint := disk.checkpoint;
    }

    /** The file system as a value. */
    function Snapshot(): Disk
      reads this
    {
      Disk(files, dirs, denied, checkpoint)
    }
  }

  class SynapseRoomLogger {
    const rooms: map<string, string>
    const outputDirectory: string
    const statePath: string
    const serialize: Record -> string
    var lastTsWritten: int

    /** The configuration the logger was built from; the state file lives in the output directory. */
    predicate Valid() {
      statePath == StatePath(outputDirectory)
    }

    constructor (rooms: map<string, string>, outputDirectory: string, serialize: Record -> string)
      ensures Valid()
      ensures this.rooms == rooms && this.outputDirectory == outputDirectory && this.serialize == serialize
      ensures lastTsWritten == 0
    {
      // The source creates the watermark only when it reads the state file;
      // 0 stands in until then, and RequestMessages reads the file first.
      this.rooms := rooms;
      this.outputDirectory := outputDirectory;
      this.statePath := StatePath(outputDirectory);
      this.serialize := serialize;
      lastTsWritten := 0;
    }

    /**
     * Sets the in-memory watermark from the state file, or to 0 when there is
     * none; reports whether the state file was found.
     */
    method ReadLastTsWritten(fs: FileSystem) returns (found: bool)
      modifies this
      ensures found == fs.checkpoint.Some?
      ensures lastTsWritten == LoadedWatermark(fs.checkpoint)
    {
      match fs.checkpoint
      case Some(ts) =>
        lastTsWritten := ts;
        found := true;
      case None =>
        lastTsWritten := 0;
        found := false;
    }

    /**
     * Saves the in-memory watermark to the state file. When the state file
     * cannot be opened for writing the result is false and nothing changes; the
     * caller then fails as the source's error handlers do.
     */
    method WriteLastTsWritten(fs: FileSystem) returns (ok: bool)
      requires Valid()
      modifies fs
      ensures ok == Writable(old(fs.Snapshot()), statePath)
      ensures fs.Snapshot() == if ok then old(fs.Snapshot()).(checkpoint := Some(lastTsWritten)) else old(fs.Snapshot())
    {
      ok := DirName(statePath) in fs.dirs && statePath !in fs.denied;
      if ok {
        fs.checkpoint := Some(lastTsWritten);
      }
    }

    /** Appends `line` and a newline to `path`, creating the file; false when it cannot be opened. */
    method AppendLine(fs: FileSystem, path: string, line: string) returns (ok: bool)
      modifies fs
      ensures ok == Writable(old(fs.Snapshot()), path)
      ensures fs.Snapshot() == if ok then old(fs.Snapshot()).(files := AppendText(old(fs.files), path, line + "\n"))
                                     else old(fs.Snapshot())
    {
      ok := DirName(path) in fs.dirs && path !in fs.denied;
      if ok {
        fs.files := AppendText(fs.files, path, line + "\n");
      }
    }

    /**
     * The loop over the fetched rows: map each row, look up its room name,
     * compute its log file and append its line, advancing the in-memory
     * watermark after each line; stop at the first row that fails.
     */
    method WriteRows(fs: FileSystem, rows: seq<Row>) returns (halt: Halt)
      modifies this, fs
      ensures var p := ExportRows(Config(rooms, outputDirectory), serialize, old(fs.Snapshot()), rows,
                                  old(fs.files), old(lastTsWritten));
        && halt == p.halt && fs.files == p.files && lastTsWritten == p.watermark
      ensures fs.Snapshot() == old(fs.Snapshot()).(files := fs.files)
    {
      ghost var disk := fs.Snapshot();
      ghost var cfg := Config(rooms, outputDirectory);
      ghost var whole := ExportRows(cfg, serialize, disk, rows, disk.files, lastTsWritten);
      var i := 0;
      while i < |rows|
        invariant 0 <= i <= |rows|
        invariant fs.Snapshot() == disk.(files := fs.files)
        invariant var rest := ExportRows(cfg, serialize, disk, rows[i..], fs.files, lastTsWritten);
          rest.files == whole.files && rest.watermark == whole.watermark && rest.halt == whole.halt
      {
        var row := rows[i];
        assert rows[i..] == [row] + rows[i + 1..];
        var mapped := ProcessMessageRow(row.receivedTs, row.payload);
        if mapped.Failure? {
          return Raised(Malformed(mapped.error));
        }
        var line := mapped.value;
        if line.roomId !in rooms {
          return Raised(UnknownRoom(line.roomId));
        }
        var roomName := rooms[line.roomId];
        var filePath := TsToFilepath(outputDirectory, line.ts, roomName);
        if filePath.None? {
          return Raised(DateOutOfRange(line.ts));
        }
        var ok := AppendLine(fs, filePath.value, serialize(line));
        if !ok {
          return WriteRefused;
        }
        lastTsWritten := line.ts;
        i := i + 1;
      }
      assert rows[i..] == [];
      return Exhausted;
    }

    /**
     * One extraction run: load the watermark, fetch the new messages (`db` is
     * None when the database cannot be reached), write them, and save the
     * watermark once every row is written.
     */
    method RequestMessages(fs: FileSystem, db: Option<seq<Row>>) returns (result: RunResult)
      requires Valid()
      modifies this, fs
      ensures var st := Run(Config(rooms, outputDirectory), serialize, old(fs.Snapshot()), db);
        result == st.result && fs.Snapshot() == st.disk && lastTsWritten == st.watermark
    {
      ghost var disk := fs.Snapshot();
      var _ := ReadLastTsWritten(fs);
      if db.None? {
        return ConnectionFailed;
      }
      var rows := Query(db.value, rooms.Keys, lastTsWritten);
      RunIsConclude(Config(rooms, outputDirectory), serialize, disk, db.value);
      var halt := WriteRows(fs, rows);
      match halt
      case Raised(fault) =>
        result := Crashed(fault);
      case WriteRefused =>
        result := WriteFailed;
      case Exhausted =>
        var saved := WriteLastTsWritten(fs);
        result := if saved then Completed else Crashed(CheckpointUnwritable);
    }
  }
}
