/** A map task over one input split: `map` is called on each (offset, line) record in
    turn, the keys it writes are collected, and the first exception ends the map task. */
module Pipeline {
  import opened Wrappers
  import opened RideRecord
  import opened Counting

  /** One input record: the byte offset of the line and its text. */
  type Record = (int, string)

  function MapAll(mapper: (int, string) -> MapOutcome, records: seq<Record>)
    : (r: Result<seq<string>, MapError>)
    ensures r.Failure? <==> exists i :: 0 <= i < |records| && mapper(records[i].0, records[i].1).Fail?
    ensures r.Success? ==> forall k :: k in r.value ==>
              exists i :: 0 <= i < |records| && k in Emitted(mapper(records[i].0, records[i].1))
  {
    if |records| == 0 then Success([])
    else
      var head := mapper(records[0].0, records[0].1);
      if head.Fail? then Failure(head.error)
      else
        var tail :- MapAll(mapper, records[1..]);
        assert forall i :: 0 < i < |records| ==> records[i] == records[1..][i - 1];
        Success(Emitted(head) + tail)
  }

  /** Records split across two tasks yield, together, the keys of one task over all of
      them, in the same order. */
  lemma {:induction false} MapAllConcat(mapper: (int, string) -> MapOutcome, a: seq<Record>, b: seq<Record>)
    requires MapAll(mapper, a).Success? && MapAll(mapper, b).Success?
    ensures MapAll(mapper, a + b) == Success(MapAll(mapper, a).value + MapAll(mapper, b).value)
  {
    if |a| > 0 {
      assert (a + b)[0] == a[0];
      assert (a + b)[1..] == a[1..] + b;
      MapAllConcat(mapper, a[1..], b);
      MapAllHead(mapper, a);
      MapAllHead(mapper, a + b);
      var head := Emitted(mapper(a[0].0, a[0].1));
      var x := MapAll(mapper, a[1..]).value;
      var y := MapAll(mapper, b).value;
      assert head + (x + y) == (head + x) + y;
    } else {
      assert a + b == b;
      assert [] + MapAll(mapper, b).value == MapAll(mapper, b).value;
    }
  }

  /** A successful task emits the first record's keys, then those of the rest. */
  lemma MapAllHead(mapper: (int, string) -> MapOutcome, records: seq<Record>)
    requires |records| > 0 && MapAll(mapper, records).Success?
    ensures MapAll(mapper, records[1..]).Success?
    ensures MapAll(mapper, records).value
            == Emitted(mapper(records[0].0, records[0].1)) + MapAll(mapper, records[1..]).value
  {
  }

  /** So the final counts do not depend on how the input is split into tasks. */
  lemma SplitIndependentCounts(mapper: (int, string) -> MapOutcome, a: seq<Record>, b: seq<Record>)
    requires MapAll(mapper, a).Success? && MapAll(mapper, b).Success?
    ensures MapAll(mapper, a + b).Success?
    ensures Tally(MapAll(mapper, a + b).value)
            == Merge(Tally(MapAll(mapper, a).value), Tally(MapAll(mapper, b).value))
  {
    MapAllConcat(mapper, a, b);
    TallyConcat(MapAll(mapper, a).value, MapAll(mapper, b).value);
  }
}
