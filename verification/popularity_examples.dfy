/** Worked popularity lines: concrete lines through the popular-stations mapper, the
    map-task loop and the counting. */
module PopularityExamples {
  import opened Wrappers
  import opened JavaStrings
  import opened RideRecord
  import PopularStations
  import opened Counting
  import opened Pipeline

  const Header: string := HeaderSignature + ",started_at,ended_at,start_station_name,start_station_id,end_station_name"
  const RoundTrip: seq<string> := ["A1", "classic_bike", "t0", "t1", "Clark St", "C1", "Clark St"]
  const OneWay: seq<string> := ["A2", "electric_bike", "t0", "t1", " Clark St", "C1", "State St "]

  /** The header row is skipped at offset 0 only. */
  lemma HeaderIsRecognised()
    ensures IsHeader(0, Header)
    ensures !IsHeader(57, Header)
  {
    ContainsPrefix(HeaderSignature, ",started_at,ended_at,start_station_name,start_station_id,end_station_name");
  }

  lemma NoCommas()
    ensures forall i :: 0 <= i < |RoundTrip| ==> ',' !in RoundTrip[i]
    ensures forall i :: 0 <= i < |OneWay| ==> ',' !in OneWay[i]
  {
  }

  lemma ColumnsSplitBack()
    ensures Fields(Join(RoundTrip, ',')) == RoundTrip
    ensures Fields(Join(OneWay, ',')) == OneWay
  {
    NoCommas();
    FieldsOfColumns(RoundTrip);
    FieldsOfColumns(OneWay);
  }

  lemma TrimClark()
    ensures Trim("Clark St") == "Clark St"
  {
    TrimOfPadded([], "Clark St", []);
    assert [] + "Clark St" + [] == "Clark St";
  }

  lemma TrimLeadingBlank()
    ensures Trim(" Clark St") == "Clark St"
  {
    TrimOfPadded(" ", "Clark St", []);
    assert " " + "Clark St" + [] == " Clark St";
  }

  lemma TrimTrailingBlank()
    ensures Trim("State St ") == "State St"
  {
    TrimOfPadded([], "State St", " ");
    assert [] + "State St" + " " == "State St ";
  }

  lemma RealStations()
    ensures !PopularStations.IsPlaceholder("Clark St") && !PopularStations.IsPlaceholder("State St")
  {
  }

  /** A trip that starts and ends at Clark St counts Clark St twice. */
  lemma RoundTripCountsTwice(offset: int, line: string)
    requires offset != 0 && |Fields(line)| > 6
    requires Fields(line)[4] == "Clark St" && Fields(line)[6] == "Clark St"
    ensures PopularStations.MapLine(offset, line) == Emit(["Clark St", "Clark St"])
  {
    TrimClark();
    RealStations();
    PopularStations.EmissionOrder(offset, line);
  }

  /** Blanks around the station cells do not reach the keys. */
  lemma OneWayCountsBothEnds(offset: int, line: string)
    requires offset != 0 && |Fields(line)| > 6
    requires Fields(line)[4] == " Clark St" && Fields(line)[6] == "State St "
    ensures PopularStations.MapLine(offset, line) == Emit(["Clark St", "State St"])
  {
    TrimLeadingBlank();
    TrimTrailingBlank();
    RealStations();
    PopularStations.EmissionOrder(offset, line);
  }

  lemma HeaderSkipped(header: string)
    requires IsHeader(0, header)
    ensures PopularStations.MapLine(0, header) == Skip(HeaderRow)
  {
  }

  /** A map task over three records whose emitted keys are known. */
  lemma ThreeRecords(mapper: (int, string) -> MapOutcome, r0: Record, r1: Record, r2: Record,
                     k0: seq<string>, k1: seq<string>, k2: seq<string>, keys: seq<string>)
    requires !mapper(r0.0, r0.1).Fail? && !mapper(r1.0, r1.1).Fail? && !mapper(r2.0, r2.1).Fail?
    requires Emitted(mapper(r0.0, r0.1)) == k0 && Emitted(mapper(r1.0, r1.1)) == k1
    requires Emitted(mapper(r2.0, r2.1)) == k2
    requires k0 + k1 + k2 == keys
    ensures MapAll(mapper, [r0, r1, r2]) == Success(keys)
  {
    var records := [r0, r1, r2];
    assert records[1..] == [r1, r2] && records[2..] == [r2] && records[3..] == [];
    assert MapAll(mapper, [r2]) == Success(k2 + []);
    assert MapAll(mapper, [r1, r2]) == Success(k1 + (k2 + []));
    assert MapAll(mapper, records) == Success(k0 + (k1 + (k2 + [])));
    assert k0 + (k1 + (k2 + [])) == k0 + k1 + k2;
  }

  lemma PopularityConcat()
    ensures [] + ["Clark St", "Clark St"] + ["Clark St", "State St"] == ["Clark St", "Clark St", "Clark St", "State St"]
  {
  }

  lemma PopularityCounts()
    ensures Tally(["Clark St", "Clark St", "Clark St", "State St"]) == map["Clark St" := 3, "State St" := 1]
  {
    var keys := ["Clark St", "Clark St", "Clark St", "State St"];
    assert multiset(keys)["Clark St"] == 3;
    assert multiset(keys)["State St"] == 1;
    SameCounts(Tally(keys), map["Clark St" := 3, "State St" := 1]);
  }

  lemma PopularityKeys(header: string, roundTrip: string, oneWay: string)
    requires IsHeader(0, header) && Fields(roundTrip) == RoundTrip && Fields(oneWay) == OneWay
    ensures MapAll(PopularStations.MapLine, [(0, header), (98, roundTrip), (140, oneWay)])
            == Success(["Clark St", "Clark St", "Clark St", "State St"])
  {
    HeaderSkipped(header);
    RoundTripCountsTwice(98, roundTrip);
    OneWayCountsBothEnds(140, oneWay);
    PopularityConcat();
    ThreeRecords(PopularStations.MapLine, (0, header), (98, roundTrip), (140, oneWay),
                 [], ["Clark St", "Clark St"], ["Clark St", "State St"],
                 ["Clark St", "Clark St", "Clark St", "State St"]);
  }

  /** Popularity end to end: a header, a round trip at Clark St and a trip from Clark St
      to State St count Clark St three times and State St once. */
  lemma PopularityExample(header: string, roundTrip: string, oneWay: string)
    requires IsHeader(0, header) && Fields(roundTrip) == RoundTrip && Fields(oneWay) == OneWay
    ensures var r := MapAll(PopularStations.MapLine, [(0, header), (98, roundTrip), (140, oneWay)]);
            r.Success? && Tally(r.value) == map["Clark St" := 3, "State St" := 1]
  {
    PopularityKeys(header, roundTrip, oneWay);
    PopularityCounts();
  }

  /** The example lines exist: the header constant and the joined columns qualify. */
  lemma PopularityExampleLines()
    ensures IsHeader(0, Header)
    ensures Fields(Join(RoundTrip, ',')) == RoundTrip
    ensures Fields(Join(OneWay, ',')) == OneWay
  {
    HeaderIsRecognised();
    ColumnsSplitBack();
  }
}
