/** The per-key counting that consumes the mappers' output: every emitted key carries a
    count of 1, and the class used as reducer is also installed as combiner, so partial
    sums per key may be merged in any grouping before the final sums. */
module Counting {

  /** The count of `k` in `m`, zero when absent. */
  function CountOf(m: map<string, nat>, k: string): nat {
    if k in m then m[k] else 0
  }

  /** One count per distinct key: how many times it was emitted. */
  function Tally(keys: seq<string>): (r: map<string, nat>)
    ensures forall k :: k in r <==> k in keys
    ensures forall k :: CountOf(r, k) == multiset(keys)[k]
  {
    if |keys| == 0 then map[]
    else
      var init := keys[..|keys| - 1];
      var last := keys[|keys| - 1];
      assert keys == init + [last];
      var m := Tally(init);
      m[last := CountOf(m, last) + 1]
  }

  /** What the reducer does for each key: adds the partial counts. */
  function Merge(a: map<string, nat>, b: map<string, nat>): (r: map<string, nat>)
    ensures r.Keys == a.Keys + b.Keys
    ensures forall k :: CountOf(r, k) == CountOf(a, k) + CountOf(b, k)
  {
    map k | k in a.Keys + b.Keys :: CountOf(a, k) + CountOf(b, k)
  }

  /** Two count maps with the same keys and the same counts are the same map. */
  lemma SameCounts(a: map<string, nat>, b: map<string, nat>)
    requires a.Keys == b.Keys
    requires forall k :: CountOf(a, k) == CountOf(b, k)
    ensures a == b
  {
    forall k | k in a
      ensures a[k] == b[k]
    {
      assert CountOf(a, k) == CountOf(b, k);
    }
  }

  /** Counting two pieces of the key stream separately and merging the partial counts
      gives the counts of the whole stream. */
  lemma TallyConcat(a: seq<string>, b: seq<string>)
    ensures Tally(a + b) == Merge(Tally(a), Tally(b))
  {
    assert multiset(a + b) == multiset(a) + multiset(b);
    var l := Tally(a + b);
    var r := Merge(Tally(a), Tally(b));
    forall k
      ensures k in l <==> k in r
    {
      assert k in a + b <==> k in a || k in b;
    }
    SameCounts(l, r);
  }

  lemma MergeCommutative(a: map<string, nat>, b: map<string, nat>)
    ensures Merge(a, b) == Merge(b, a)
  {
    SameCounts(Merge(a, b), Merge(b, a));
  }

  lemma MergeAssociative(a: map<string, nat>, b: map<string, nat>, c: map<string, nat>)
    ensures Merge(Merge(a, b), c) == Merge(a, Merge(b, c))
  {
    SameCounts(Merge(Merge(a, b), c), Merge(a, Merge(b, c)));
  }

  lemma MergeIdentity(a: map<string, nat>)
    ensures Merge(a, map[]) == a
  {
    SameCounts(Merge(a, map[]), a);
  }

  function Flatten(parts: seq<seq<string>>): seq<string> {
    if |parts| == 0 then [] else Flatten(parts[..|parts| - 1]) + parts[|parts| - 1]
  }

  /** Counts each partition on its own (the combiner) and merges the partial counts
      (the reducer). */
  function CombineThenReduce(parts: seq<seq<string>>): map<string, nat> {
    if |parts| == 0 then map[]
    else Merge(CombineThenReduce(parts[..|parts| - 1]), Tally(parts[|parts| - 1]))
  }

  /** However the key stream is partitioned, combining per partition and then reducing
      gives the same counts as counting the whole stream at once. */
  lemma {:induction false} CombinerTransparent(parts: seq<seq<string>>)
    ensures CombineThenReduce(parts) == Tally(Flatten(parts))
  {
    if |parts| == 0 {
      assert Tally([]) == map[];
    } else {
      CombinerTransparent(parts[..|parts| - 1]);
      TallyConcat(Flatten(parts[..|parts| - 1]), parts[|parts| - 1]);
    }
  }
}
