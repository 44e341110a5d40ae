/** Worked examples for the busiest-hour mapper: a quoted start time on a Monday
    morning, midnight and noon on the twelve-hour clock, and a timestamp in another
    layout. */
module HourExamples {
  import opened Wrappers
  import opened JavaStrings
  import opened Decimal
  import opened Calendar
  import opened Timestamp
  import opened RideRecord
  import opened BusiestHour
  import PopularityExamples

  const Morning: string := "1/15/2024 8:30:00 AM"
  const Midnight: string := "1/15/2024 12:05:00 AM"
  const Noon: string := "1/15/2024 12:05:00 PM"

  /** A data line of a ride from Clark St whose start-time cell is `started` in quotes. */
  predicate ClarkRide(offset: int, line: string, started: string) {
    && !IsHeader(offset, line)
    && |Fields(line)| > StartStationIndex
    && Fields(line)[StartStationIndex] == "Clark St"
    && Fields(line)[StartedAtIndex] == "\"" + started + "\""
  }

  lemma RenderOneDigit()
    ensures Render(1, 1) == "1" && Render(8, 1) == "8"
  {
  }

  lemma RenderTwoDigits()
    ensures Render(15, 1) == "15" && Render(12, 1) == "12"
  {
    assert Render(1, 0) == "1";
  }

  lemma RenderYear()
    ensures Render(2024, 4) == "2024"
  {
    assert Render(2, 1) == "2";
    assert Render(20, 2) == "20";
    assert Render(202, 3) == "202";
  }

  lemma RenderPadded()
    ensures Render(30, 2) == "30" && Render(5, 2) == "05" && Render(0, 2) == "00"
    ensures Render(8, 2) == "08" && Render(12, 2) == "12"
  {
    assert Render(3, 1) == "3" && Render(0, 1) == "0" && Render(1, 1) == "1";
  }

  lemma RenderDigits()
    ensures Render(1, 1) == "1" && Render(15, 1) == "15" && Render(2024, 4) == "2024"
    ensures Render(8, 1) == "8" && Render(12, 1) == "12"
    ensures Render(30, 2) == "30" && Render(5, 2) == "05" && Render(0, 2) == "00"
    ensures Render(8, 2) == "08" && Render(12, 2) == "12"
  {
    RenderOneDigit();
    RenderTwoDigits();
    RenderYear();
    RenderPadded();
  }

  lemma JanuaryFifteenth()
    ensures ValidDate(2024, 1, 15)
  {
  }

  lemma ClockFacts()
    ensures To12Hour(8) == (8, false) && To12Hour(0) == (12, false) && To12Hour(12) == (12, true)
  {
  }

  lemma MorningText()
    ensures Valid(DateTime(2024, 1, 15, 8, 30, 0))
    ensures FormatTimestamp(DateTime(2024, 1, 15, 8, 30, 0)) == Morning
  {
    JanuaryFifteenth();
    ClockFacts();
    RenderDigits();
  }

  lemma MidnightText()
    ensures Valid(DateTime(2024, 1, 15, 0, 5, 0))
    ensures FormatTimestamp(DateTime(2024, 1, 15, 0, 5, 0)) == Midnight
  {
    JanuaryFifteenth();
    ClockFacts();
    RenderDigits();
  }

  lemma NoonText()
    ensures Valid(DateTime(2024, 1, 15, 12, 5, 0))
    ensures FormatTimestamp(DateTime(2024, 1, 15, 12, 5, 0)) == Noon
  {
    JanuaryFifteenth();
    ClockFacts();
    RenderDigits();
  }

  /** "8:30:00 AM" is hour 8; "12:05:00 AM" is hour 0 and "12:05:00 PM" hour 12. */
  lemma ClockTimesParse()
    ensures ParseTimestamp(Morning) == Some(DateTime(2024, 1, 15, 8, 30, 0))
    ensures ParseTimestamp(Midnight) == Some(DateTime(2024, 1, 15, 0, 5, 0))
    ensures ParseTimestamp(Noon) == Some(DateTime(2024, 1, 15, 12, 5, 0))
  {
    MorningText();
    MidnightText();
    NoonText();
    ParseFormat(DateTime(2024, 1, 15, 8, 30, 0));
    ParseFormat(DateTime(2024, 1, 15, 0, 5, 0));
    ParseFormat(DateTime(2024, 1, 15, 12, 5, 0));
  }

  /** In this restricted grammar a month field longer than two digits is a parse failure. */
  lemma LongMonthRejected(s: string)
    requires DigitRun(s) > 2
    ensures ParseTimestamp(s).None?
  {
  }

  /** In this restricted grammar an ISO-style timestamp does not fit the pattern: the month
      field would be four digits. (Java's own parser reads the four digits as a month and
      fails at the `-`; either way the text is rejected.) */
  lemma IsoLayoutRejected(s: string)
    requires s == "2024-01-15 08:30:00.000"
    ensures ParseTimestamp(s).None?
  {
    assert s[..4] == "2024" && s[4] == '-';
    LongMonthRejected(s);
  }

  /** The surrounding quotes of a cell are dropped before parsing. */
  lemma QuotesDropped(text: string)
    requires '"' !in text
    ensures CleanTimestamp("\"" + text + "\"") == text
  {
    var cell := "\"" + text + "\"";
    TrimOfPadded([], cell, []);
    assert [] + cell + [] == cell;
    RemoveCharConcat("\"" + text, "\"", '"');
    RemoveCharConcat("\"", text, '"');
    RemoveCharAbsent(text, '"');
  }

  /** The key of a Clark St ride started at `started`, which reads as `t`. */
  lemma RideKey(topStations: set<string>, offset: int, line: string, started: string, t: DateTime)
    requires "Clark St" in topStations && '"' !in started
    requires ClarkRide(offset, line, started)
    requires ParseTimestamp(started) == Some(t)
    ensures MapLine(topStations, offset, line)
            == Emit([BucketKey("Clark St", DayOfWeek(t.year, t.month, t.day), t.hour)])
  {
    PopularityExamples.TrimClark();
    QuotesDropped(started);
    MapLineTopStation(topStations, offset, line);
  }

  /** The key of a Clark St ride started at `started`, which reads as `t`, is `key`. */
  lemma RideKeyIs(topStations: set<string>, offset: int, line: string, started: string, t: DateTime,
                  key: string)
    requires "Clark St" in topStations && '"' !in started
    requires ClarkRide(offset, line, started)
    requires ParseTimestamp(started) == Some(t) && Valid(t)
    requires BucketKey("Clark St", DayOfWeek(t.year, t.month, t.day), t.hour) == key
    ensures MapLine(topStations, offset, line) == Emit([key])
  {
    RideKey(topStations, offset, line, started, t);
  }

  lemma MondayKeys()
    ensures BucketKey("Clark St", DayOfWeek(2024, 1, 15), 8) == "Clark St_MONDAY_08"
    ensures BucketKey("Clark St", DayOfWeek(2024, 1, 15), 0) == "Clark St_MONDAY_00"
    ensures BucketKey("Clark St", DayOfWeek(2024, 1, 15), 12) == "Clark St_MONDAY_12"
  {
    DayOfWeekAnchors();
    RenderDigits();
  }

  /** A start time that reads as Monday 2024-01-15 8:30 AM, such as `Morning`, puts a
      ride from a top station in the MONDAY_08 bucket. */
  lemma MorningRide(topStations: set<string>, offset: int, line: string, started: string)
    requires "Clark St" in topStations && '"' !in started
    requires ParseTimestamp(started) == Some(DateTime(2024, 1, 15, 8, 30, 0))
    requires ClarkRide(offset, line, started)
    ensures MapLine(topStations, offset, line) == Emit(["Clark St_MONDAY_08"])
  {
    MorningText();
    MondayKeys();
    RideKeyIs(topStations, offset, line, started, DateTime(2024, 1, 15, 8, 30, 0), "Clark St_MONDAY_08");
  }

  /** 12 AM, as in `Midnight`, is the first hour of the day. */
  lemma MidnightRide(topStations: set<string>, offset: int, line: string, started: string)
    requires "Clark St" in topStations && '"' !in started
    requires ParseTimestamp(started) == Some(DateTime(2024, 1, 15, 0, 5, 0))
    requires ClarkRide(offset, line, started)
    ensures MapLine(topStations, offset, line) == Emit(["Clark St_MONDAY_00"])
  {
    MidnightText();
    MondayKeys();
    RideKeyIs(topStations, offset, line, started, DateTime(2024, 1, 15, 0, 5, 0), "Clark St_MONDAY_00");
  }

  /** 12 PM, as in `Noon`, is noon. */
  lemma NoonRide(topStations: set<string>, offset: int, line: string, started: string)
    requires "Clark St" in topStations && '"' !in started
    requires ParseTimestamp(started) == Some(DateTime(2024, 1, 15, 12, 5, 0))
    requires ClarkRide(offset, line, started)
    ensures MapLine(topStations, offset, line) == Emit(["Clark St_MONDAY_12"])
  {
    NoonText();
    MondayKeys();
    RideKeyIs(topStations, offset, line, started, DateTime(2024, 1, 15, 12, 5, 0), "Clark St_MONDAY_12");
  }

  /** A ride whose start time does not parse, such as the ISO layout, is logged and
      skipped rather than failing the map task. */
  lemma UnparsableRideSkipped(topStations: set<string>, offset: int, line: string, started: string)
    requires "Clark St" in topStations && '"' !in started
    requires ParseTimestamp(started).None?
    requires ClarkRide(offset, line, started)
    ensures MapLine(topStations, offset, line) == Skip(UnparsableTimestamp(started))
  {
    PopularityExamples.TrimClark();
    QuotesDropped(started);
    MapLineTopStation(topStations, offset, line);
  }
}
