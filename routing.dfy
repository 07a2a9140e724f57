/**
 * The Router: which log file a record goes to. One file per room per UTC day,
 * `<output_directory>/<room_name>_<YYYYMMDD>.log`, the date being the UTC
 * calendar date of the reception timestamp in milliseconds.
 */
module Routing {
  import opened Wrappers
  import opened Calendar

  const MillisPerDay: int := 86400000

  /** Day number (days since 0001-01-01) of the Unix epoch, 1970-01-01. */
  const EpochDayNumber: int := 719162

  /** Day number of 9999-12-31, the last date the date library can represent. */
  const LastDayNumber: int := 3652058

  lemma EpochDayNumberIsUnixEpoch()
    ensures DayNumber(Date(1970, 1, 1)) == EpochDayNumber
    ensures DayNumber(Date(9999, 12, 31)) == LastDayNumber
  {
  }

  /** Day number of the UTC day a millisecond timestamp falls in (floor division). */
  function DayOf(ts: int): int {
    ts / MillisPerDay + EpochDayNumber
  }

  /**
   * The UTC calendar date of a millisecond timestamp; None when that date is
   * outside years 1 to 9999, where the date library raises an error.
   */
  function UtcDate(ts: int): (r: Option<Date>)
    ensures r.Some? <==> 0 <= DayOf(ts) <= LastDayNumber
    ensures r.Some? ==> ValidDate(r.value) && r.value.year <= 9999 && DayNumber(r.value) == DayOf(ts)
  {
    var n := DayOf(ts);
    if n < 0 then None
    else
      var d := DateOf(n);
      YearBound(d, 10000);
      if d.year > 9999 then None else Some(d)
  }

  /** The UTC date lies `ts / MillisPerDay` whole days after 1970-01-01. */
  lemma UtcDateCountsFromEpoch(ts: int)
    requires UtcDate(ts).Some?
    ensures DayNumber(UtcDate(ts).value) - DayNumber(Date(1970, 1, 1)) == ts / MillisPerDay
  {
    EpochDayNumberIsUnixEpoch();
  }

  /** The log file for a record received at `timestamp` in the room named `roomName`. */
  function TsToFilepath(outputDirectory: string, timestamp: int, roomName: string): (r: Option<string>)
    ensures r.Some? <==> 0 <= DayOf(timestamp) <= LastDayNumber
  {
    match UtcDate(timestamp)
    case None => None
    case Some(d) => Some(outputDirectory + "/" + roomName + "_" + BasicFormat(d) + ".log")
  }

  /**
   * For a fixed directory and room, two timestamps share a log file exactly
   * when they fall on the same UTC day.
   */
  lemma SamePathIffSameDay(outputDirectory: string, roomName: string, ts1: int, ts2: int)
    requires TsToFilepath(outputDirectory, ts1, roomName).Some?
    requires TsToFilepath(outputDirectory, ts2, roomName).Some?
    ensures TsToFilepath(outputDirectory, ts1, roomName) == TsToFilepath(outputDirectory, ts2, roomName)
        <==> ts1 / MillisPerDay == ts2 / MillisPerDay
  {
    var d1, d2 := UtcDate(ts1).value, UtcDate(ts2).value;
    LogPathShape(outputDirectory, ts1, roomName);
    LogPathShape(outputDirectory, ts2, roomName);
    if TsToFilepath(outputDirectory, ts1, roomName) == TsToFilepath(outputDirectory, ts2, roomName) {
      LogPathDate(outputDirectory, ts1, roomName);
      LogPathDate(outputDirectory, ts2, roomName);
      BasicFormatInjective(d1, d2);
    }
    if ts1 / MillisPerDay == ts2 / MillisPerDay {
      DayNumberInjective(d1, d2);
    }
  }

  /** The date sits at a fixed place in a log file's path. */
  lemma LogPathDate(outputDirectory: string, timestamp: int, roomName: string)
    requires UtcDate(timestamp).Some?
    ensures var prefix := outputDirectory + "/" + roomName + "_";
      var path := TsToFilepath(outputDirectory, timestamp, roomName).value;
      |prefix| + 8 <= |path| && path[|prefix|..|prefix| + 8] == BasicFormat(UtcDate(timestamp).value)
  {
    LogPathShape(outputDirectory, timestamp, roomName);
  }

  /** Every instant of 2023-05-01 UTC has that date. */
  lemma UtcDateExample(ts: int)
    requires 1682899200000 <= ts < 1682985600000
    ensures UtcDate(ts) == Some(Date(2023, 5, 1))
  {
    var d := Date(2023, 5, 1);
    assert DayNumber(d) == 738640;
    DateOfDayNumber(d);
    assert DayOf(ts) == 738640;
  }

  /** A representable date gives the path `<dir>/<room>_<YYYYMMDD>.log`. */
  lemma LogPathShape(outputDirectory: string, timestamp: int, roomName: string)
    requires UtcDate(timestamp).Some?
    ensures TsToFilepath(outputDirectory, timestamp, roomName)
         == Some(outputDirectory + "/" + roomName + "_" + BasicFormat(UtcDate(timestamp).value) + ".log")
  {
  }

  lemma ExamplePathSpelling(date: string)
    requires date == "20230501"
    ensures "/srv/logs" + "/" + "general" + "_" + date + ".log" == "/srv/logs/general_20230501.log"
  {
  }

  /**
   * The example deployment: whatever the hour, a message received on
   * 2023-05-01 UTC in the room named `general` goes to `general_20230501.log`.
   */
  lemma TsToFilepathExample(ts: int)
    requires 1682899200000 <= ts < 1682985600000
    ensures TsToFilepath("/srv/logs", ts, "general") == Some("/srv/logs/general_20230501.log")
  {
    UtcDateExample(ts);
    LogPathShape("/srv/logs", ts, "general");
    BasicFormatExample();
    ExamplePathSpelling(BasicFormat(UtcDate(ts).value));
  }

  /** Everything before the last `/` of a path: the directory a file is opened in. */
  function DirName(path: string): string {
    if path == [] then []
    else if path[|path| - 1] == '/' then path[..|path| - 1]
    else DirName(path[..|path| - 1])
  }

  /** A log file whose room name has no `/` lies directly in the output directory. */
  lemma {:induction false} DirNameOfLogPath(outputDirectory: string, name: string)
    requires '/' !in name
    ensures DirName(outputDirectory + "/" + name) == outputDirectory
    decreases |name|
  {
    var path := outputDirectory + "/" + name;
    if name != [] {
      assert path[..|path| - 1] == outputDirectory + "/" + name[..|name| - 1];
      DirNameOfLogPath(outputDirectory, name[..|name| - 1]);
    } else {
      assert path[..|path| - 1] == outputDirectory;
    }
  }

  lemma LogFileInOutputDirectory(outputDirectory: string, timestamp: int, roomName: string)
    requires '/' !in roomName
    requires TsToFilepath(outputDirectory, timestamp, roomName).Some?
    ensures DirName(TsToFilepath(outputDirectory, timestamp, roomName).value) == outputDirectory
  {
    var name := roomName + "_" + BasicFormat(UtcDate(timestamp).value) + ".log";
    assert TsToFilepath(outputDirectory, timestamp, roomName).value == outputDirectory + "/" + name;
    DirNameOfLogPath(outputDirectory, name);
  }
}
