/** Metrics::recordHistogram (src/monitoring/Metrics.cpp): per key a running sum, a count and one
    counter for each bucket. Values are reals; keys stand for their hashes, taken as injective. */
module Histogram {

  type Key = string

  datatype Stats = Stats(buckets: seq<real>, counts: seq<nat>, sum: real, count: nat)

  const DEFAULT_BUCKETS: seq<real> := [0.1, 0.5, 1.0, 5.0, 10.0, 50.0, 100.0, 500.0, 1000.0]

  predicate Sorted(bs: seq<real>) {
    forall i, j :: 0 <= i < j < |bs| ==> bs[i] < bs[j]
  }

  // ---------------------------------------------------------------- recounting

  /** v belongs to the first bucket whose bound it does not exceed. */
  predicate InBucket(bs: seq<real>, v: real, i: int) {
    0 <= i < |bs| && v <= bs[i] && forall j :: 0 <= j < i ==> v > bs[j]
  }

  ghost function CountIn(bs: seq<real>, vs: seq<real>, i: int): nat {
    if vs == [] then 0
    else CountIn(bs, vs[..|vs| - 1], i) + (if InBucket(bs, vs[|vs| - 1], i) then 1 else 0)
  }

  function AtMost(vs: seq<real>, bound: real): nat {
    if vs == [] then 0 else AtMost(vs[..|vs| - 1], bound) + (if vs[|vs| - 1] <= bound then 1 else 0)
  }

  function Sum(vs: seq<real>): real {
    if vs == [] then 0.0 else Sum(vs[..|vs| - 1]) + vs[|vs| - 1]
  }

  function Total(counts: seq<nat>): nat {
    if counts == [] then 0 else Total(counts[..|counts| - 1]) + counts[|counts| - 1]
  }

  /** s is what counting the recorded values from scratch gives. */
  ghost predicate Recount(s: Stats, vs: seq<real>) {
    && s.buckets == DEFAULT_BUCKETS
    && |s.counts| == |s.buckets|
    && (forall i :: 0 <= i < |s.counts| ==> s.counts[i] == CountIn(s.buckets, vs, i))
    && s.sum == Sum(vs)
    && s.count == |vs|
  }

  lemma RecountStep(s: Stats, vs: seq<real>, val: real, counts: seq<nat>)
    requires Recount(s, vs) && |counts| == |s.counts|
    requires forall i :: 0 <= i < |counts| ==> counts[i] == s.counts[i] + if InBucket(s.buckets, val, i) then 1 else 0
    ensures Recount(Stats(s.buckets, counts, s.sum + val, s.count + 1), vs + [val])
  {
    assert (vs + [val])[..|vs|] == vs;
  }

  /** Each value at most bs[i] is in exactly one of the buckets 0..i. */
  lemma {:induction false} PrefixCounts(bs: seq<real>, vs: seq<real>, counts: seq<nat>, n: nat)
    requires Sorted(bs) && |counts| == |bs| && n < |bs|
    requires forall i :: 0 <= i < |bs| ==> counts[i] == CountIn(bs, vs, i)
    ensures Total(counts[..n + 1]) == AtMost(vs, bs[n])
    decreases vs, n
  {
    assert counts[..n + 1][..n] == counts[..n];
    if n == 0 {
      FirstBucket(bs, vs);
    } else {
      PrefixCounts(bs, vs, counts, n - 1);
      NextBucket(bs, vs, n);
    }
  }

  lemma {:induction false} FirstBucket(bs: seq<real>, vs: seq<real>)
    requires bs != []
    ensures CountIn(bs, vs, 0) == AtMost(vs, bs[0])
  {
    if vs != [] { FirstBucket(bs, vs[..|vs| - 1]); }
  }

  lemma {:induction false} NextBucket(bs: seq<real>, vs: seq<real>, n: nat)
    requires Sorted(bs) && 0 < n < |bs|
    ensures AtMost(vs, bs[n - 1]) + CountIn(bs, vs, n) == AtMost(vs, bs[n])
  {
    if vs != [] {
      var v := vs[|vs| - 1];
      NextBucket(bs, vs[..|vs| - 1], n);
      assert bs[n - 1] < bs[n];
      assert InBucket(bs, v, n) <==> bs[n - 1] < v <= bs[n] by {
        if bs[n - 1] < v {
          assert forall j :: 0 <= j < n ==> bs[j] <= bs[n - 1];
        }
      }
    }
  }

  /** The default buckets, by the values that fall into them. */
  lemma DefaultBuckets(v: real, i: int)
    ensures |DEFAULT_BUCKETS| == 9 && Sorted(DEFAULT_BUCKETS)
    ensures InBucket(DEFAULT_BUCKETS, v, 0) <==> v <= 0.1
    ensures InBucket(DEFAULT_BUCKETS, v, 1) <==> 0.1 < v <= 0.5
    ensures InBucket(DEFAULT_BUCKETS, v, 2) <==> 0.5 < v <= 1.0
    ensures InBucket(DEFAULT_BUCKETS, v, 3) <==> 1.0 < v <= 5.0
    ensures InBucket(DEFAULT_BUCKETS, v, 4) <==> 5.0 < v <= 10.0
    ensures InBucket(DEFAULT_BUCKETS, v, 5) <==> 10.0 < v <= 50.0
    ensures InBucket(DEFAULT_BUCKETS, v, 6) <==> 50.0 < v <= 100.0
    ensures InBucket(DEFAULT_BUCKETS, v, 7) <==> 100.0 < v <= 500.0
    ensures InBucket(DEFAULT_BUCKETS, v, 8) <==> 500.0 < v <= 1000.0
    ensures v > 1000.0 ==> !InBucket(DEFAULT_BUCKETS, v, i)
  {
    var b := DEFAULT_BUCKETS;
    assert b[0] == 0.1 && b[1] == 0.5 && b[2] == 1.0 && b[3] == 5.0 && b[4] == 10.0;
    assert b[5] == 50.0 && b[6] == 100.0 && b[7] == 500.0 && b[8] == 1000.0;
  }

  function UpTo(vs: seq<real>, bound: real): set<int> {
    set i | 0 <= i < |vs| && vs[i] <= bound
  }

  /** AtMost counts, and Sum adds up. */
  lemma {:induction false} AtMostIsCount(vs: seq<real>, bound: real)
    ensures AtMost(vs, bound) == |UpTo(vs, bound)|
  {
    if vs != [] {
      var n := |vs| - 1;
      AtMostIsCount(vs[..n], bound);
      assert UpTo(vs, bound) == UpTo(vs[..n], bound) + (if vs[n] <= bound then {n} else {});
    }
  }

  lemma {:induction false} SumAdds(a: seq<real>, b: seq<real>)
    ensures Sum(a + b) == Sum(a) + Sum(b)
    ensures forall v: real :: Sum([v]) == v
  {
    if b == [] {
      assert a + b == a;
    } else {
      assert (a + b)[..|a + b| - 1] == a + b[..|b| - 1];
      SumAdds(a, b[..|b| - 1]);
    }
    forall v: real ensures Sum([v]) == v {
      assert [v][..0] == [];
    }
  }

  // ---------------------------------------------------------------- the object

  class Metrics {
    var histograms: map<Key, Stats>
    ghost var recorded: map<Key, seq<real>>

    ghost predicate Valid()
      reads this
    {
      recorded.Keys == histograms.Keys && forall k :: k in histograms ==> Recount(histograms[k], recorded[k])
    }

    constructor ()
      ensures Valid() && recorded == map[]
    {
      histograms, recorded := map[], map[];
    }

    ghost function ValuesOf(key: Key): seq<real>
      requires Valid()
      reads this
    {
      if key in recorded then recorded[key] else []
    }

    /** After any sequence of calls the stored statistics are a recount of the values recorded. */
    method RecordHistogram(key: Key, val: real)
      requires Valid()
      modifies this
      ensures Valid() && recorded == old(recorded)[key := old(ValuesOf(key)) + [val]]
      ensures forall k :: k in old(histograms) && k != key ==> k in histograms && histograms[k] == old(histograms[k])
    {
      ghost var vs := ValuesOf(key);
      var stats;
      if key in histograms {
        stats := histograms[key];
      } else {
        stats := NewStats();
        histograms := histograms[key := stats];
      }
      var newCounts := IncrementBucket(stats.buckets, stats.counts, val);
      RecountStep(stats, vs, val, newCounts);
      stats := Stats(stats.buckets, newCounts, stats.sum + val, stats.count + 1);
      histograms := histograms[key := stats];
      recorded := recorded[key := vs + [val]];
    }

    method NewStats() returns (stats: Stats)
      ensures Recount(stats, [])
    {
      var emptyCounts: seq<nat> := [];
      for i := 0 to |DEFAULT_BUCKETS|
        invariant |emptyCounts| == i && forall j :: 0 <= j < i ==> emptyCounts[j] == 0
      {
        emptyCounts := emptyCounts + [0];
      }
      stats := Stats(DEFAULT_BUCKETS, emptyCounts, 0.0, 0);
    }

    /** The loop over the buckets, left at the first bound the value does not exceed. */
    method IncrementBucket(buckets: seq<real>, counts: seq<nat>, val: real) returns (newCounts: seq<nat>)
      requires |buckets| == |counts|
      ensures |newCounts| == |counts|
      ensures forall i :: 0 <= i < |counts| ==> newCounts[i] == counts[i] + if InBucket(buckets, val, i) then 1 else 0
    {
      newCounts := counts;
      for i := 0 to |buckets|
        invariant newCounts == counts
        invariant forall j :: 0 <= j < i ==> val > buckets[j]
      {
        if val <= buckets[i] {
          newCounts := newCounts[i := counts[i] + 1];
          break;
        }
      }
    }

    /** What is read back: prefix sums of the counts count the recorded values up to each bound,
        and a key never recorded reads as empty. */
    method GetHistogram(key: Key) returns (stats: Stats)
      requires Valid()
      ensures stats.sum == Sum(ValuesOf(key)) && stats.count == |ValuesOf(key)|
      ensures |stats.counts| == |stats.buckets|
      ensures stats.buckets == if key in recorded then DEFAULT_BUCKETS else []
      ensures forall i :: 0 <= i < |stats.buckets| ==> Total(stats.counts[..i + 1]) == AtMost(ValuesOf(key), stats.buckets[i])
    {
      if key in histograms {
        stats := histograms[key];
        forall i | 0 <= i < |stats.buckets|
          ensures Total(stats.counts[..i + 1]) == AtMost(ValuesOf(key), stats.buckets[i])
        {
          PrefixCounts(stats.buckets, ValuesOf(key), stats.counts, i);
        }
      } else {
        stats := Stats([], [], 0.0, 0);
      }
    }
  }
}
