/** The start-time column of the busiest-hour mapper: text in the pattern
    `M/d/yyyy h:mm:ss a` (English AM/PM markers) parsed to a local date-time, as
    `LocalDateTime.parse` does with that formatter, restricted to the canonical shapes
    listed at `ParseTimestamp`. */
module Timestamp {
  import opened Wrappers
  import opened Decimal
  import opened Calendar

  /** A `java.time.LocalDateTime` at second precision; `hour` is 0..23. */
  datatype DateTime = DateTime(year: int, month: int, day: int, hour: int, minute: int, second: int)

  predicate Valid(t: DateTime) {
    ValidDate(t.year, t.month, t.day)
    && 0 <= t.hour < 24 && 0 <= t.minute < 60 && 0 <= t.second < 60
  }

  /** What the parser can read back: the year fits the four-digit `yyyy` field. */
  predicate Printable(t: DateTime) {
    Valid(t) && t.year <= 9999
  }

  // ---------------------------------------------------------------------------
  // clock-hour-of-am-pm (`h`) with the `a` marker, and hour-of-day

  /** Resolves `h` (1..12) and the AM/PM marker to the hour of the day: 12 AM is
      midnight and 12 PM is noon. */
  function To24Hour(h: int, pm: bool): (hour: int)
    requires 1 <= h <= 12
    ensures 0 <= hour < 24
    ensures hour % 12 == h % 12
    ensures hour >= 12 <==> pm
  {
    h % 12 + (if pm then 12 else 0)
  }

  /** How the formatter prints an hour of the day as `h` and `a`. */
  function To12Hour(hour: int): (r: (int, bool))
    requires 0 <= hour < 24
    ensures 1 <= r.0 <= 12
  {
    (if hour % 12 == 0 then 12 else hour % 12, hour >= 12)
  }

  /** The two clock conventions are inverse to each other, both ways round. */
  lemma ClockRoundTrip(h: int, pm: bool, hour: int)
    ensures 1 <= h <= 12 ==> To12Hour(To24Hour(h, pm)) == (h, pm)
    ensures 0 <= hour < 24 ==> var c := To12Hour(hour); To24Hour(c.0, c.1) == hour
  {
  }

  // ---------------------------------------------------------------------------
  // the scanner

  /** Length of the run of digits at the front of `s`. */
  function DigitRun(s: string): (n: nat)
    ensures n <= |s| && AllDigits(s[..n])
    ensures n < |s| ==> !IsDigit(s[n])
  {
    if |s| > 0 && IsDigit(s[0]) then
      var n := 1 + DigitRun(s[1..]);
      assert s[..n] == [s[0]] + s[1..][..n - 1];
      n
    else 0
  }

  /** A numeric field of `min`..`max` digits, followed by something that is not a digit. */
  function ReadNumber(s: string, min: nat, max: nat): (r: Option<(nat, string)>)
    ensures r.Some? ==> |r.value.1| < |s|
  {
    var n := DigitRun(s);
    if min <= n <= max && n > 0 then Some((ValueOf(s[..n]), s[n..])) else None
  }

  /** A literal that must appear next. */
  function Expect(s: string, lit: string): (r: Option<string>)
    ensures r.Some? ==> s == lit + r.value
  {
    if |lit| <= |s| && s[..|lit|] == lit then Some(s[|lit|..]) else None
  }

  /** The `a` field in `Locale.ENGLISH`: exactly "AM" or "PM" (parsing is case-sensitive). */
  function ReadMarker(s: string): (r: Option<(bool, string)>)
  {
    if Expect(s, "AM").Some? then Some((false, s[2..]))
    else if Expect(s, "PM").Some? then Some((true, s[2..]))
    else None
  }

  /** The date part `M/d/yyyy`: month and day of one or two digits, a four-digit year. */
  function ReadDate(s: string): (r: Option<(nat, nat, nat, string)>)
    ensures r.Some? ==> r.value.2 <= 9999
  {
    var (month, s1) :- ReadNumber(s, 1, 2);
    var s2 :- Expect(s1, "/");
    var (day, s3) :- ReadNumber(s2, 1, 2);
    var s4 :- Expect(s3, "/");
    var n := DigitRun(s4);
    var (year, rest) :- ReadNumber(s4, 4, 4);
    assert year <= 9999 by {
      ValueOfBound(s4[..n]);
    }
    Some((month, day, year, rest))
  }

  /** The time part `h:mm:ss`: clock hour of one or two digits, two-digit minutes and seconds. */
  function ReadTime(s: string): Option<(nat, nat, nat, string)>
  {
    var (h, s1) :- ReadNumber(s, 1, 2);
    var s2 :- Expect(s1, ":");
    var (minute, s3) :- ReadNumber(s2, 2, 2);
    var s4 :- Expect(s3, ":");
    var (second, rest) :- ReadNumber(s4, 2, 2);
    Some((h, minute, second, rest))
  }

  /** `LocalDateTime.parse(s, ofPattern("M/d/yyyy h:mm:ss a", Locale.ENGLISH))`.
      Accepted: month, day and clock hour of one or two digits, a four-digit year,
      two-digit minutes and seconds, single `/`, ` ` and `:` separators, and the whole
      text consumed; then the values must form a real date and time. Anything else is
      a parse failure (the Java `DateTimeParseException`). */
  function ParseTimestamp(s: string): (r: Option<DateTime>)
    ensures r.Some? ==> Printable(r.value)
  {
    var (month, day, year, s1) :- ReadDate(s);
    var s2 :- Expect(s1, " ");
    var (h, minute, second, s3) :- ReadTime(s2);
    var s4 :- Expect(s3, " ");
    var (pm, rest) :- ReadMarker(s4);
    if rest != [] then None
    else if !ValidDate(year, month, day) || !(1 <= h <= 12) || minute >= 60 || second >= 60 then None
    else Some(DateTime(year, month, day, To24Hour(h, pm), minute, second))
  }

  /** `t` in the pattern, with month, day and clock hour printed at `wm`, `wd` and `wh`
      digits at least: width 1 is how the formatter prints them, width 2 the
      zero-padded form (`01/05/2024 08:30:00 AM`) that the parser accepts as well. */
  function Printing(t: DateTime, wm: nat, wd: nat, wh: nat): string
    requires Valid(t)
  {
    var (h, pm) := To12Hour(t.hour);
    var time := Render(h, wh) + (":" + (Render(t.minute, 2) + (":" + (Render(t.second, 2)
      + (" " + (if pm then "PM" else "AM"))))));
    Render(t.month, wm) + ("/" + (Render(t.day, wd) + ("/" + (Render(t.year, 4) + (" " + time)))))
  }

  /** `t` printed with the same pattern. */
  function FormatTimestamp(t: DateTime): string
    requires Valid(t)
  {
    Printing(t, 1, 1, 1)
  }

  // ---------------------------------------------------------------------------
  // round trip

  lemma DigitRunOfRendered(digits: string, rest: string)
    requires AllDigits(digits)
    requires rest == [] || !IsDigit(rest[0])
    ensures DigitRun(digits + rest) == |digits|
    decreases |digits|
  {
    if |digits| > 0 {
      assert (digits + rest)[1..] == digits[1..] + rest;
      DigitRunOfRendered(digits[1..], rest);
    }
  }

  lemma ReadRendered(n: nat, width: nat, rest: string, min: nat, max: nat)
    requires rest == [] || !IsDigit(rest[0])
    requires min <= |Render(n, width)| <= max
    ensures ReadNumber(Render(n, width) + rest, min, max) == Some((n, rest))
  {
    var r := Render(n, width);
    DigitRunOfRendered(r, rest);
    assert (r + rest)[..|r|] == r;
    assert (r + rest)[|r|..] == rest;
    ValueOfRender(n, width);
  }

  lemma ExpectPrefix(lit: string, rest: string)
    ensures Expect(lit + rest, lit) == Some(rest)
  {
    assert (lit + rest)[..|lit|] == lit;
    assert (lit + rest)[|lit|..] == rest;
  }

  lemma ReadDateFormat(month: nat, day: nat, year: nat, wm: nat, wd: nat, rest: string)
    requires 1 <= month <= 12 && 1 <= day <= 31 && 1 <= year <= 9999
    requires 1 <= wm <= 2 && 1 <= wd <= 2
    requires rest == [] || !IsDigit(rest[0])
    ensures ReadDate(Render(month, wm) + ("/" + (Render(day, wd) + ("/" + (Render(year, 4) + rest)))))
            == Some((month, day, year, rest))
  {
    var t5 := Render(year, 4) + rest;
    var t4 := "/" + t5;
    var t3 := Render(day, wd) + t4;
    var t2 := "/" + t3;
    RenderWidths(month, wm);
    RenderWidths(day, wd);
    RenderWidths(year, 4);
    ReadRendered(month, wm, t2, 1, 2);
    ExpectPrefix("/", t3);
    ReadRendered(day, wd, t4, 1, 2);
    ExpectPrefix("/", t5);
    ReadRendered(year, 4, rest, 4, 4);
  }

  lemma ReadTimeFormat(h: nat, minute: nat, second: nat, wh: nat, rest: string)
    requires 1 <= h <= 12 && minute < 60 && second < 60
    requires 1 <= wh <= 2
    requires rest == [] || !IsDigit(rest[0])
    ensures ReadTime(Render(h, wh) + (":" + (Render(minute, 2) + (":" + (Render(second, 2) + rest)))))
            == Some((h, minute, second, rest))
  {
    var t5 := Render(second, 2) + rest;
    var t4 := ":" + t5;
    var t3 := Render(minute, 2) + t4;
    var t2 := ":" + t3;
    RenderWidths(h, wh);
    RenderWidths(minute, 2);
    RenderWidths(second, 2);
    ReadRendered(h, wh, t2, 1, 2);
    ExpectPrefix(":", t3);
    ReadRendered(minute, 2, t4, 2, 2);
    ExpectPrefix(":", t5);
    ReadRendered(second, 2, rest, 2, 2);
  }

  /** Parsing any of the accepted printings of a date-time gives it back. */
  lemma ParsePrinting(t: DateTime, wm: nat, wd: nat, wh: nat)
    requires Printable(t)
    requires 1 <= wm <= 2 && 1 <= wd <= 2 && 1 <= wh <= 2
    ensures ParseTimestamp(Printing(t, wm, wd, wh)) == Some(t)
  {
    var (h, pm) := To12Hour(t.hour);
    var marker := if pm then "PM" else "AM";
    var tail := " " + marker;
    var time := Render(h, wh) + (":" + (Render(t.minute, 2) + (":" + (Render(t.second, 2) + tail))));
    var text := Render(t.month, wm) + ("/" + (Render(t.day, wd) + ("/" + (Render(t.year, 4) + (" " + time)))));
    assert text == Printing(t, wm, wd, wh);
    ReadDateFormat(t.month, t.day, t.year, wm, wd, " " + time);
    ExpectPrefix(" ", time);
    ReadTimeFormat(h, t.minute, t.second, wh, tail);
    ExpectPrefix(" ", marker);
    ExpectPrefix(marker, []);
    assert marker + [] == marker;
    assert ReadMarker(marker) == Some((pm, []));
    ClockRoundTrip(h, pm, t.hour);
  }

  /** Parsing what the formatter prints gives the same date-time back. */
  lemma ParseFormat(t: DateTime)
    requires Printable(t)
    ensures ParseTimestamp(FormatTimestamp(t)) == Some(t)
  {
    ParsePrinting(t, 1, 1, 1);
  }

  // ---------------------------------------------------------------------------
  // what the parser accepts is a printing

  /** A numeric field that reads is its value rendered at the field's width. */
  lemma ReadNumberPrinted(s: string, min: nat, max: nat)
    requires ReadNumber(s, min, max).Some?
    ensures var n := DigitRun(s);
            var (v, rest) := ReadNumber(s, min, max).value;
            1 <= n && min <= n <= max && s == Render(v, n) + rest
  {
    var n := DigitRun(s);
    RenderValueOf(s[..n]);
    assert s == s[..n] + s[n..];
  }

  /** The four fields `ReadDate` consumes, one after the other. */
  lemma ReadDateSteps(s: string) returns (s2: string, s4: string)
    requires ReadDate(s).Some?
    ensures var (month, day, year, rest) := ReadDate(s).value;
            && ReadNumber(s, 1, 2) == Some((month, "/" + s2))
            && ReadNumber(s2, 1, 2) == Some((day, "/" + s4))
            && ReadNumber(s4, 4, 4) == Some((year, rest))
  {
    var (month, s1) := ReadNumber(s, 1, 2).value;
    s2 := Expect(s1, "/").value;
    var (day, s3) := ReadNumber(s2, 1, 2).value;
    s4 := Expect(s3, "/").value;
  }

  lemma ReadDatePrinted(s: string) returns (wm: nat, wd: nat)
    requires ReadDate(s).Some?
    ensures var (month, day, year, rest) := ReadDate(s).value;
            1 <= wm <= 2 && 1 <= wd <= 2
            && s == Render(month, wm) + ("/" + (Render(day, wd) + ("/" + (Render(year, 4) + rest))))
  {
    var s2, s4 := ReadDateSteps(s);
    ReadNumberPrinted(s, 1, 2);
    ReadNumberPrinted(s2, 1, 2);
    ReadNumberPrinted(s4, 4, 4);
    wm := DigitRun(s);
    wd := DigitRun(s2);
  }

  /** The three fields `ReadTime` consumes, one after the other. */
  lemma ReadTimeSteps(s: string) returns (s2: string, s4: string)
    requires ReadTime(s).Some?
    ensures var (h, minute, second, rest) := ReadTime(s).value;
            && ReadNumber(s, 1, 2) == Some((h, ":" + s2))
            && ReadNumber(s2, 2, 2) == Some((minute, ":" + s4))
            && ReadNumber(s4, 2, 2) == Some((second, rest))
  {
    var (h, s1) := ReadNumber(s, 1, 2).value;
    s2 := Expect(s1, ":").value;
    var (minute, s3) := ReadNumber(s2, 2, 2).value;
    s4 := Expect(s3, ":").value;
  }

  lemma ReadTimePrinted(s: string) returns (wh: nat)
    requires ReadTime(s).Some?
    ensures var (h, minute, second, rest) := ReadTime(s).value;
            1 <= wh <= 2
            && s == Render(h, wh) + (":" + (Render(minute, 2) + (":" + (Render(second, 2) + rest))))
  {
    var s2, s4 := ReadTimeSteps(s);
    ReadNumberPrinted(s, 1, 2);
    ReadNumberPrinted(s2, 2, 2);
    ReadNumberPrinted(s4, 2, 2);
    wh := DigitRun(s);
  }

  lemma ReadMarkerPrinted(s: string)
    requires ReadMarker(s).Some?
    ensures var (pm, rest) := ReadMarker(s).value;
            s == (if pm then "PM" else "AM") + rest
  {
  }

  /** The fields the parser reads from an accepted text, and where they stop. */
  lemma ParsedFields(s: string, t: DateTime)
    returns (h: nat, pm: bool, s2: string)
    requires ParseTimestamp(s) == Some(t)
    ensures ReadDate(s) == Some((t.month as nat, t.day as nat, t.year as nat, " " + s2))
    ensures 1 <= h <= 12 && t.hour == To24Hour(h, pm)
    ensures ReadTime(s2) == Some((h, t.minute as nat, t.second as nat, " " + (if pm then "PM" else "AM")))
  {
    var (month, day, year, s1) := ReadDate(s).value;
    s2 := Expect(s1, " ").value;
    var (h', minute, second, s3) := ReadTime(s2).value;
    h := h';
    var s4 := Expect(s3, " ").value;
    var (pm', rest) := ReadMarker(s4).value;
    pm := pm';
    assert rest == [];
    assert t == DateTime(year, month, day, To24Hour(h, pm), minute, second);
    TailPrinted(s3, pm);
  }

  /** What follows the seconds in an accepted text: a space and the marker, nothing more. */
  lemma TailPrinted(s3: string, pm: bool)
    requires Expect(s3, " ").Some?
    requires ReadMarker(Expect(s3, " ").value) == Some((pm, []))
    ensures s3 == " " + (if pm then "PM" else "AM")
  {
    var s4 := Expect(s3, " ").value;
    ReadMarkerPrinted(s4);
    assert s4 == (if pm then "PM" else "AM") + [];
  }

  /** Every text the parser accepts is a printing of the date-time it reads as, with
      month, day and clock hour at one or two digits. */
  lemma ParsedIsPrinting(s: string, t: DateTime)
    requires ParseTimestamp(s) == Some(t)
    ensures Printable(t)
    ensures exists wm: nat, wd: nat, wh: nat ::
              1 <= wm <= 2 && 1 <= wd <= 2 && 1 <= wh <= 2 && s == Printing(t, wm, wd, wh)
  {
    var h, pm, s2 := ParsedFields(s, t);
    var wm, wd := ReadDatePrinted(s);
    var wh := ReadTimePrinted(s2);
    ClockRoundTrip(h, pm, t.hour);
    assert s == Printing(t, wm, wd, wh);
  }

  /** The text the parser accepts for `t` is exactly the printings of `t`. */
  lemma ParseTimestampExactly(s: string, t: DateTime)
    ensures ParseTimestamp(s) == Some(t) <==>
              Printable(t) && exists wm: nat, wd: nat, wh: nat ::
                1 <= wm <= 2 && 1 <= wd <= 2 && 1 <= wh <= 2 && s == Printing(t, wm, wd, wh)
  {
    if ParseTimestamp(s) == Some(t) {
      ParsedIsPrinting(s, t);
    }
    if Printable(t) && exists wm: nat, wd: nat, wh: nat ::
         1 <= wm <= 2 && 1 <= wd <= 2 && 1 <= wh <= 2 && s == Printing(t, wm, wd, wh) {
      var wm: nat, wd: nat, wh: nat :|
        1 <= wm <= 2 && 1 <= wd <= 2 && 1 <= wh <= 2 && s == Printing(t, wm, wd, wh);
      ParsePrinting(t, wm, wd, wh);
    }
  }
}
