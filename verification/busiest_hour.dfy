/** `BusiestHourMapper`: `setup` loads the set of top stations from the cached
    `top_stations.txt`, and `map` turns a trip that starts at a top station into the
    bucket key `<station>_<WEEKDAY>_<hh>`. */
module BusiestHour {
  import opened Wrappers
  import opened JavaStrings
  import opened Decimal
  import opened Calendar
  import opened Timestamp
  import opened RideRecord

  const StartedAtIndex: nat := 2
  const StartStationIndex: nat := 4
  const TopStationsFileName: string := "top_stations.txt"

  // ---------------------------------------------------------------------------
  // bucket keys

  /** `String.format("%s_%s_%02d", station, day.toString(), hour)`. */
  function BucketKey(station: string, day: Weekday, hour: nat): string {
    station + ("_" + WeekdayName(day)) + ("_" + Render(hour, 2))
  }

  const AllWeekdays: seq<Weekday> := [Monday, Tuesday, Wednesday, Thursday, Friday, Saturday, Sunday]

  /** The first weekday in `ws` whose name, after an underscore, ends `text`. */
  function FindWeekdaySuffix(text: string, ws: seq<Weekday>): (r: Option<Weekday>)
    ensures r.Some? ==> r.value in ws && EndsWith(text, "_" + WeekdayName(r.value))
  {
    if |ws| == 0 then None
    else if EndsWith(text, "_" + WeekdayName(ws[0])) then Some(ws[0])
    else FindWeekdaySuffix(text, ws[1..])
  }

  /** Reads a bucket key back into station, weekday and hour. */
  function DecodeBucketKey(key: string): Option<(string, Weekday, nat)>
  {
    if |key| < 3 || key[|key| - 3] != '_' || !AllDigits(key[|key| - 2..]) then None
    else
      var rest := key[..|key| - 3];
      var day :- FindWeekdaySuffix(rest, AllWeekdays);
      Some((rest[..|rest| - |WeekdayName(day)| - 1], day, ValueOf(key[|key| - 2..])))
  }

  /** No weekday name, after an underscore, is a suffix of another one's. */
  lemma WeekdaySuffixUnique(station: string, day: Weekday, other: Weekday)
    ensures EndsWith(station + ("_" + WeekdayName(day)), "_" + WeekdayName(other)) <==> day == other
  {
    var b := "_" + WeekdayName(day);
    var c := "_" + WeekdayName(other);
    EndsWithConcat(station, b, c);
    if day == other {
      EndsWithOwnSuffix(station, b);
    } else if |c| <= |b| {
      assert b[|b| - |c|..] != c by {
        NamesDiffer(day, other);
      }
    } else {
      assert c[|c| - |b|..] != b by {
        NamesDiffer(other, day);
      }
    }
  }

  /** Weekday names of equal length already differ in their first two letters. */
  lemma InitialsDiffer(w1: Weekday, w2: Weekday)
    requires w1 != w2 && |WeekdayName(w1)| == |WeekdayName(w2)|
    ensures WeekdayName(w1)[..2] != WeekdayName(w2)[..2]
  {
    assert WeekdayName(w1)[..2] == Initials(w1);
    assert WeekdayName(w2)[..2] == Initials(w2);
  }

  function Initials(w: Weekday): string {
    match w
    case Monday => "MO"
    case Tuesday => "TU"
    case Wednesday => "WE"
    case Thursday => "TH"
    case Friday => "FR"
    case Saturday => "SA"
    case Sunday => "SU"
  }

  /** Aligned at their ends, the suffixes `_<NAME>` of two different weekdays differ
      within the length of the shorter one. */
  lemma NamesDiffer(long: Weekday, short: Weekday)
    requires long != short
    requires |WeekdayName(short)| <= |WeekdayName(long)|
    ensures var b := "_" + WeekdayName(long);
            var c := "_" + WeekdayName(short);
            b[|b| - |c|..] != c
  {
    var b := "_" + WeekdayName(long);
    var c := "_" + WeekdayName(short);
    if |c| < |b| {
      // the shorter key's underscore faces a letter of the longer name
      assert b[|b| - |c|..][0] == WeekdayName(long)[|b| - |c| - 1];
    } else {
      // names of equal length already differ in their first letter or the second
      assert b[|b| - |c|..] == b;
      assert b[1..3] == WeekdayName(long)[..2];
      assert c[1..3] == WeekdayName(short)[..2];
      InitialsDiffer(long, short);
    }
  }

  lemma {:induction false} FindWeekdaySuffixOf(station: string, day: Weekday, ws: seq<Weekday>)
    requires day in ws
    ensures FindWeekdaySuffix(station + ("_" + WeekdayName(day)), ws) == Some(day)
  {
    WeekdaySuffixUnique(station, day, ws[0]);
    if ws[0] != day {
      FindWeekdaySuffixOf(station, day, ws[1..]);
    }
  }

  /** A bucket key determines its station, weekday and hour: keys of distinct buckets
      are distinct, even for station names that contain underscores. */
  lemma DecodeBucketKeyRoundTrip(station: string, day: Weekday, hour: nat)
    requires hour < 24
    ensures DecodeBucketKey(BucketKey(station, day, hour)) == Some((station, day, hour))
  {
    var hh := Render(hour, 2);
    RenderWidths(hour, 2);
    ValueOfRender(hour, 2);
    var named := station + ("_" + WeekdayName(day));
    var key := BucketKey(station, day, hour);
    assert key == named + "_" + hh;
    assert key[|key| - 2..] == hh;
    assert key[|key| - 3] == '_';
    assert key[..|key| - 3] == named;
    FindWeekdaySuffixOf(station, day, AllWeekdays);
    assert named[..|named| - |WeekdayName(day)| - 1] == station;
  }

  lemma BucketKeyInjective(s1: string, d1: Weekday, h1: nat, s2: string, d2: Weekday, h2: nat)
    requires h1 < 24 && h2 < 24
    ensures BucketKey(s1, d1, h1) == BucketKey(s2, d2, h2) <==> s1 == s2 && d1 == d2 && h1 == h2
  {
    DecodeBucketKeyRoundTrip(s1, d1, h1);
    DecodeBucketKeyRoundTrip(s2, d2, h2);
  }

  // ---------------------------------------------------------------------------
  // map

  /** The start-time cell as handed to the parser: trimmed, then every `"` removed. */
  function CleanTimestamp(cell: string): (r: string)
    ensures '"' !in r
  {
    RemoveChar(Trim(cell), '"')
  }

  /** The map function on the line at byte offset `offset`, given the loaded top stations. */
  function MapLine(topStations: set<string>, offset: int, line: string): (r: MapOutcome)
    ensures IsHeader(offset, line) ==> r == Skip(HeaderRow)
    ensures !IsHeader(offset, line) && |Fields(line)| <= StartStationIndex
            ==> r == Fail(IndexOutOfBounds(StartStationIndex, |Fields(line)|))
    ensures (!IsHeader(offset, line) && |Fields(line)| > StartStationIndex
             && Trim(Fields(line)[StartStationIndex]) !in topStations) ==> r == Skip(NotTopStation)
    ensures |Emitted(r)| <= 1
    ensures r.Emit? ==> (|r.keys| == 1 &&
              var d := DecodeBucketKey(r.keys[0]);
              d.Some? && d.value.0 == Trim(Fields(line)[StartStationIndex])
              && d.value.0 in topStations && d.value.2 < 24)
    ensures r.Skip? && r.reason.UnparsableTimestamp? ==> ParseTimestamp(r.reason.text).None?
    ensures (!IsHeader(offset, line) && |Fields(line)| > StartStationIndex
             && Trim(Fields(line)[StartStationIndex]) in topStations) ==>
              var text := CleanTimestamp(Fields(line)[StartedAtIndex]);
              var t := ParseTimestamp(text);
              && (r.Emit? <==> t.Some?)
              && (t.None? ==> r == Skip(UnparsableTimestamp(text)))
              && (t.Some? ==> DecodeBucketKey(r.keys[0]) == Some((Trim(Fields(line)[StartStationIndex]),
                                DayOfWeek(t.value.year, t.value.month, t.value.day), t.value.hour)))
  {
    if IsHeader(offset, line) then Skip(HeaderRow)
    else
      var parts := Fields(line);
      if |parts| <= StartStationIndex then Fail(IndexOutOfBounds(StartStationIndex, |parts|))
      else
        var station := Trim(parts[StartStationIndex]);
        if station !in topStations then Skip(NotTopStation)
        else
          var text := CleanTimestamp(parts[StartedAtIndex]);
          match ParseTimestamp(text)
          case None => Skip(UnparsableTimestamp(text))
          case Some(t) =>
            DecodeBucketKeyRoundTrip(station, DayOfWeek(t.year, t.month, t.day), t.hour);
            Emit([BucketKey(station, DayOfWeek(t.year, t.month, t.day), t.hour)])
  }

  /** For a data line starting at a top station, the outcome is decided by the start
      time alone: its weekday and hour form the key, or, unparsable, it is logged and
      skipped. */
  lemma MapLineTopStation(topStations: set<string>, offset: int, line: string)
    requires !IsHeader(offset, line) && |Fields(line)| > StartStationIndex
    requires Trim(Fields(line)[StartStationIndex]) in topStations
    ensures var station := Trim(Fields(line)[StartStationIndex]);
            var text := CleanTimestamp(Fields(line)[StartedAtIndex]);
            match ParseTimestamp(text)
            case None => MapLine(topStations, offset, line) == Skip(UnparsableTimestamp(text))
            case Some(t) => MapLine(topStations, offset, line)
                              == Emit([BucketKey(station, DayOfWeek(t.year, t.month, t.day), t.hour)])
  {
  }

  /** The hour segment of an emitted key is `_` and exactly two digits, 00 to 23. */
  lemma EmittedHourSegment(topStations: set<string>, offset: int, line: string)
    requires MapLine(topStations, offset, line).Emit?
    ensures var k := MapLine(topStations, offset, line).keys[0];
            |k| >= 3 && k[|k| - 3] == '_' && AllDigits(k[|k| - 2..]) && ValueOf(k[|k| - 2..]) < 24
  {
    var k := MapLine(topStations, offset, line).keys[0];
    assert DecodeBucketKey(k).Some?;
  }

  /** With no top stations loaded, no line contributes anything. */
  lemma EmptyTopStationsEmitNothing(offset: int, line: string)
    ensures Emitted(MapLine({}, offset, line)) == []
  {
  }

  /** The header rule looks at the offset: the header text anywhere but offset 0 is an
      ordinary data line. */
  lemma HeaderOnlyAtOffsetZero(topStations: set<string>, offset: int, line: string)
    requires offset != 0 || !Contains(line, HeaderSignature)
    ensures MapLine(topStations, offset, line) == MapLine(topStations, 1, line)
  {
  }

  // ---------------------------------------------------------------------------
  // setup

  /** The `IOException` that aborts `setup`, and the one opening a missing file throws. */
  datatype SetupError = CacheFilesMissing | FileNotFound(path: string)

  /** The message `setup` prints once the set is loaded. */
  datatype SetupLog = EmptyTopStations | LoadedTopStations(count: nat)

  datatype Loaded = Loaded(topStations: set<string>, log: SetupLog)

  predicate IsTopStationsPath(path: string) {
    EndsWith(path, TopStationsFileName)
  }

  /** Index of the first cache path that names the top-stations file. */
  function FirstTopStationsPath(paths: seq<string>): (r: Option<nat>)
    ensures r.Some? ==> r.value < |paths| && IsTopStationsPath(paths[r.value])
    ensures r.Some? ==> forall j :: 0 <= j < r.value ==> !IsTopStationsPath(paths[j])
    ensures r.None? ==> forall j :: 0 <= j < |paths| ==> !IsTopStationsPath(paths[j])
  {
    if |paths| == 0 then None
    else if IsTopStationsPath(paths[0]) then Some(0)
    else
      match FirstTopStationsPath(paths[1..])
      case None => None
      case Some(i) => Some(i + 1)
  }

  /** Every line of the file, trimmed; duplicates collapse. */
  function TrimmedLines(lines: seq<string>): (r: set<string>)
    ensures forall l :: l in lines ==> Trim(l) in r
    ensures forall s :: s in r ==> exists l :: l in lines && Trim(l) == s
  {
    set l | l in lines :: Trim(l)
  }

  function LogFor(topStations: set<string>): SetupLog {
    if topStations == {} then EmptyTopStations else LoadedTopStations(|topStations|)
  }

  /** `setup`: `cacheFiles` is `context.getCacheFiles()` (None for null) reduced to the
      URI paths, and `files` maps a local path to the lines a reader returns for it. */
  function LoadTopStations(cacheFiles: Option<seq<string>>, files: map<string, seq<string>>)
    : (r: Result<Loaded, SetupError>)
    ensures r == Failure(CacheFilesMissing) <==> cacheFiles.None? || |cacheFiles.value| == 0
    ensures r.Success? ==> (r.value.log == EmptyTopStations <==> r.value.topStations == {})
    ensures r.Success? && r.value.log.LoadedTopStations? ==> r.value.log.count == |r.value.topStations|
    ensures r.Success? ==> forall s :: s in r.value.topStations ==>
              exists p :: p in cacheFiles.value && IsTopStationsPath(p) && p in files
                          && exists l :: l in files[p] && Trim(l) == s
  {
    if cacheFiles.None? || |cacheFiles.value| == 0 then Failure(CacheFilesMissing)
    else
      var paths := cacheFiles.value;
      match FirstTopStationsPath(paths)
      case None => Success(Loaded({}, EmptyTopStations))
      case Some(i) =>
        if paths[i] !in files then Failure(FileNotFound(paths[i]))
        else
          var top := TrimmedLines(files[paths[i]]);
          Success(Loaded(top, LogFor(top)))
  }

  /** The loop `setup` runs: walk the cache paths, read the first one that names the
      top-stations file line by line, and stop there. */
  method Setup(cacheFiles: Option<seq<string>>, files: map<string, seq<string>>)
    returns (r: Result<Loaded, SetupError>)
    ensures r == LoadTopStations(cacheFiles, files)
  {
    if cacheFiles.None? || |cacheFiles.value| == 0 {
      return Failure(CacheFilesMissing);
    }
    var paths := cacheFiles.value;
    var i := 0;
    while i < |paths|
      invariant 0 <= i <= |paths|
      invariant forall j :: 0 <= j < i ==> !IsTopStationsPath(paths[j])
    {
      if IsTopStationsPath(paths[i]) {
        FirstMatchIs(paths, i);
        if paths[i] !in files {
          return Failure(FileNotFound(paths[i]));
        }
        var topStations := ReadTopStations(files[paths[i]]);
        return Success(Loaded(topStations, LogFor(topStations)));
      }
      i := i + 1;
    }
    return Success(Loaded({}, EmptyTopStations));
  }

  /** The `readLine` loop: adds each trimmed line to the set. */
  method ReadTopStations(lines: seq<string>) returns (topStations: set<string>)
    ensures topStations == TrimmedLines(lines)
  {
    topStations := {};
    var k := 0;
    while k < |lines|
      invariant 0 <= k <= |lines|
      invariant topStations == TrimmedLines(lines[..k])
    {
      assert lines[..k + 1] == lines[..k] + [lines[k]];
      topStations := topStations + {Trim(lines[k])};
      k := k + 1;
    }
    assert lines[..k] == lines;
  }

  lemma FirstMatchIs(paths: seq<string>, i: nat)
    requires i < |paths| && IsTopStationsPath(paths[i])
    requires forall j :: 0 <= j < i ==> !IsTopStationsPath(paths[j])
    ensures FirstTopStationsPath(paths) == Some(i)
  {
    var r := FirstTopStationsPath(paths);
    assert r.Some?;
  }

  /** The first path that names the top-stations file decides the outcome: it is read,
      and the set is exactly its trimmed lines; if it cannot be opened, setup fails. */
  lemma LoadsFirstMatch(paths: seq<string>, files: map<string, seq<string>>, i: nat)
    requires i < |paths| && IsTopStationsPath(paths[i])
    requires forall j :: 0 <= j < i ==> !IsTopStationsPath(paths[j])
    ensures paths[i] !in files ==> LoadTopStations(Some(paths), files) == Failure(FileNotFound(paths[i]))
    ensures paths[i] in files ==>
              && LoadTopStations(Some(paths), files).Success?
              && LoadTopStations(Some(paths), files).value.topStations == set l | l in files[paths[i]] :: Trim(l)
  {
    FirstMatchIs(paths, i);
  }

  /** Only the first matching path is read: any paths after it change nothing. */
  lemma LaterPathsIgnored(paths: seq<string>, more: seq<string>, files: map<string, seq<string>>)
    requires exists j :: 0 <= j < |paths| && IsTopStationsPath(paths[j])
    ensures LoadTopStations(Some(paths + more), files) == LoadTopStations(Some(paths), files)
  {
    var i := FirstTopStationsPath(paths).value;
    assert (paths + more)[i] == paths[i];
    FirstMatchIs(paths + more, i);
  }

  /** No matching path, or a matching file with no lines: setup still succeeds, with an
      empty set and the warning, and then the mapper emits nothing at all. */
  lemma MissingOrEmptyFileLoadsNothing(paths: seq<string>, files: map<string, seq<string>>, offset: int, line: string)
    requires |paths| > 0
    requires var f := FirstTopStationsPath(paths);
             f.None? || (paths[f.value] in files && files[paths[f.value]] == [])
    ensures LoadTopStations(Some(paths), files) == Success(Loaded({}, EmptyTopStations))
    ensures Emitted(MapLine(LoadTopStations(Some(paths), files).value.topStations, offset, line)) == []
  {
  }
}
