/** `PopularStationsMapper.map`: one trip line contributes its start station and then its
    end station (columns 4 and 6, trimmed), each unless it is a placeholder. */
module PopularStations {
  import opened JavaStrings
  import opened RideRecord

  const StartStationIndex: nat := 4
  const EndStationIndex: nat := 6

  /** A station cell that stands for "no station": empty, or "NULL" or "NA" in any case. */
  predicate IsPlaceholder(name: string) {
    name == [] || EqualsIgnoreCase(name, "NULL") || EqualsIgnoreCase(name, "NA")
  }

  /** The key a station cell contributes: its trimmed text, unless that is a placeholder. */
  function StationKey(cell: string): (r: seq<string>)
    ensures |r| <= 1
    ensures r == [Trim(cell)] <==> !IsPlaceholder(Trim(cell))
    ensures forall k :: k in r ==> k == Trim(cell) && k == Trim(k) && !IsPlaceholder(k)
  {
    var name := Trim(cell);
    TrimIdempotent(cell);
    if IsPlaceholder(name) then [] else [name]
  }

  /** The map function on the line at byte offset `offset`. */
  function MapLine(offset: int, line: string): (r: MapOutcome)
    ensures IsHeader(offset, line) ==> r == Skip(HeaderRow)
    ensures !IsHeader(offset, line) && |Fields(line)| <= StartStationIndex
            ==> r == Fail(IndexOutOfBounds(StartStationIndex, |Fields(line)|))
    ensures !IsHeader(offset, line) && StartStationIndex < |Fields(line)| <= EndStationIndex
            ==> r == Fail(IndexOutOfBounds(EndStationIndex, |Fields(line)|))
    ensures !IsHeader(offset, line) && |Fields(line)| > EndStationIndex <==> r.Emit?
    ensures r.Emit? ==> |r.keys| <= 2
    ensures r.Emit? ==> forall k :: k in r.keys ==>
              k == Trim(k) && !IsPlaceholder(k)
              && (k == Trim(Fields(line)[StartStationIndex]) || k == Trim(Fields(line)[EndStationIndex]))
  {
    if IsHeader(offset, line) then Skip(HeaderRow)
    else
      var parts := Fields(line);
      if |parts| <= StartStationIndex then Fail(IndexOutOfBounds(StartStationIndex, |parts|))
      else if |parts| <= EndStationIndex then Fail(IndexOutOfBounds(EndStationIndex, |parts|))
      else
        Emit(StationKey(parts[StartStationIndex]) + StationKey(parts[EndStationIndex]))
  }

  /** The start station is written first and the end station last; a trip that starts and
      ends at the same real station counts it twice. */
  lemma EmissionOrder(offset: int, line: string)
    requires !IsHeader(offset, line) && |Fields(line)| > EndStationIndex
    ensures var r := MapLine(offset, line);
            var start := Trim(Fields(line)[StartStationIndex]);
            var end := Trim(Fields(line)[EndStationIndex]);
            && (!IsPlaceholder(start) ==> r.keys[0] == start)
            && (!IsPlaceholder(end) ==> r.keys[|r.keys| - 1] == end)
            && (!IsPlaceholder(start) && !IsPlaceholder(end) ==> r.keys == [start, end])
            && (IsPlaceholder(start) && IsPlaceholder(end) ==> r.keys == [])
  {
    var parts := Fields(line);
    var a := StationKey(parts[StartStationIndex]);
    var b := StationKey(parts[EndStationIndex]);
    assert MapLine(offset, line).keys == a + b;
    KeyOrder(a, b, Trim(parts[StartStationIndex]), Trim(parts[EndStationIndex]));
  }

  /** Zero or one start key followed by zero or one end key. */
  lemma KeyOrder(a: seq<string>, b: seq<string>, start: string, end: string)
    requires a == [] || a == [start]
    requires b == [] || b == [end]
    ensures a == [start] ==> (a + b)[0] == start
    ensures b == [end] ==> (a + b)[|a + b| - 1] == end
    ensures a == [start] && b == [end] ==> a + b == [start, end]
    ensures a == [] && b == [] ==> a + b == []
  {
  }

  /** The header rule looks at the offset: the header text anywhere but offset 0 is an
      ordinary data line, and a line without the signature maps the same at every offset. */
  lemma HeaderOnlyAtOffsetZero(offset: int, line: string)
    requires offset != 0 || !Contains(line, HeaderSignature)
    ensures MapLine(offset, line) == MapLine(1, line)
  {
  }

  /** No placeholder spelling ever becomes a key. */
  lemma NoPlaceholderKeys(offset: int, line: string, k: string)
    requires k in Emitted(MapLine(offset, line))
    ensures k != [] && k !in {"NA", "Na", "nA", "na"}
    ensures !(|k| == 4 && k[0] in "Nn" && k[1] in "Uu" && k[2] in "Ll" && k[3] in "Ll")
  {
    EqualsIgnoreCaseNA(k);
    EqualsIgnoreCaseNULL(k);
  }

  /** A data line given by its columns: the keys come from columns 4 and 6 only. */
  lemma MapColumns(offset: int, columns: seq<string>)
    requires offset != 0 && |columns| > EndStationIndex
    requires forall i :: 0 <= i < |columns| ==> ',' !in columns[i]
    ensures MapLine(offset, Join(columns, ',')) ==
            Emit(StationKey(columns[StartStationIndex]) + StationKey(columns[EndStationIndex]))
  {
    FieldsOfColumns(columns);
  }
}
