/** Latency samples: merging them between clients and summarising them. Samples are
    real numbers here, so rounding plays no part. */
module StatsModule {
  import opened Wrappers

  type Samples = map<string, seq<real>>

  function SamplesOf(lat: Samples, op: string): seq<real> {
    if op in lat then lat[op] else []
  }

  // ---- Sorting and counting ----

  function Insert(x: real, s: seq<real>): seq<real> {
    if s == [] || x <= s[0] then [x] + s else [s[0]] + Insert(x, s[1..])
  }

  function Sort(s: seq<real>): seq<real> {
    if s == [] then [] else Insert(s[0], Sort(s[1..]))
  }

  predicate Ascending(s: seq<real>) {
    forall i, j :: 0 <= i < j < |s| ==> s[i] <= s[j]
  }

  function AtMost(s: seq<real>, v: real): nat {
    if s == [] then 0 else (if s[0] <= v then 1 else 0) + AtMost(s[1..], v)
  }

  function Below(s: seq<real>, v: real): nat {
    if s == [] then 0 else (if s[0] < v then 1 else 0) + Below(s[1..], v)
  }

  function Sum(s: seq<real>): real {
    if s == [] then 0.0 else s[0] + Sum(s[1..])
  }

  function Mean(s: seq<real>): real
    requires s != []
  {
    Sum(s) / (|s| as real)
  }

  lemma {:induction false} InsertMembers(x: real, s: seq<real>)
    ensures multiset(Insert(x, s)) == multiset(s) + multiset{x}
  {
    if s == [] || x <= s[0] {
    } else {
      InsertMembers(x, s[1..]);
      assert s == [s[0]] + s[1..];
    }
  }

  lemma {:induction false} InsertAscending(x: real, s: seq<real>)
    requires Ascending(s)
    ensures Ascending(Insert(x, s))
  {
    if s == [] || x <= s[0] {
    } else {
      var rest := Insert(x, s[1..]);
      InsertAscending(x, s[1..]);
      InsertMembers(x, s[1..]);
      forall j | 0 <= j < |rest| ensures s[0] <= rest[j] {
        assert rest[j] in multiset(rest);
        assert rest[j] in multiset(s[1..]) || rest[j] == x;
      }
    }
  }

  lemma {:induction false} InsertCounts(x: real, s: seq<real>, v: real)
    ensures AtMost(Insert(x, s), v) == AtMost(s, v) + if x <= v then 1 else 0
    ensures Below(Insert(x, s), v) == Below(s, v) + if x < v then 1 else 0
    ensures Sum(Insert(x, s)) == Sum(s) + x
  {
    if s == [] || x <= s[0] {
      assert ([x] + s)[1..] == s;
    } else {
      InsertCounts(x, s[1..], v);
      assert ([s[0]] + Insert(x, s[1..]))[1..] == Insert(x, s[1..]);
    }
  }

  lemma {:induction false} SortPermutes(s: seq<real>)
    ensures Ascending(Sort(s)) && multiset(Sort(s)) == multiset(s) && |Sort(s)| == |s|
  {
    if s == [] {
    } else {
      SortPermutes(s[1..]);
      InsertAscending(s[0], Sort(s[1..]));
      InsertMembers(s[0], Sort(s[1..]));
      assert s == [s[0]] + s[1..];
      assert |multiset(Sort(s))| == |multiset(s)|;
    }
  }

  lemma {:induction false} SortCounts(s: seq<real>, v: real)
    ensures AtMost(Sort(s), v) == AtMost(s, v) && Below(Sort(s), v) == Below(s, v) && Sum(Sort(s)) == Sum(s)
  {
    if s == [] {
    } else {
      SortCounts(s[1..], v);
      InsertCounts(s[0], Sort(s[1..]), v);
    }
  }

  lemma {:induction false} CountsFromPosition(s: seq<real>, i: nat)
    requires Ascending(s) && i < |s|
    ensures AtMost(s, s[i]) >= i + 1
    ensures Below(s, s[i]) <= i
    decreases |s|
  {
    if i == 0 {
      NoneBelow(s, s[0]);
    } else {
      assert s[1..][i - 1] == s[i];
      CountsFromPosition(s[1..], i - 1);
    }
  }

  lemma {:induction false} NoneBelow(s: seq<real>, v: real)
    requires forall j :: 0 <= j < |s| ==> v <= s[j]
    ensures Below(s, v) == 0
  {
    if s == [] {
    } else {
      NoneBelow(s[1..], v);
    }
  }

  lemma {:induction false} AverageBounds(s: seq<real>, lo: real, hi: real)
    requires forall j :: 0 <= j < |s| ==> lo <= s[j] <= hi
    ensures lo * (|s| as real) <= Sum(s) <= hi * (|s| as real)
  {
    if s == [] {
    } else {
      AverageBounds(s[1..], lo, hi);
      assert |s| as real == 1.0 + |s[1..]| as real;
      assert lo * (1.0 + |s[1..]| as real) == lo + lo * (|s[1..]| as real);
      assert hi * (1.0 + |s[1..]| as real) == hi + hi * (|s[1..]| as real);
    }
  }

  // ---- The summary ----

  // `avg`, `min`, `max` and the 99th percentile.
  datatype Summary = Summary(avg: real, min: real, max: real, p99: real)

  /** The index of the 99th percentile: ceil(0.99 * len) - 1, kept inside the list. */
  function Rank(len: nat): nat
    requires len > 0
  {
    var ceiling := (99 * len + 99) / 100;
    var idx := if ceiling == 0 then 0 else ceiling - 1;
    if idx < len - 1 then idx else len - 1
  }

  lemma RankBounds(len: nat)
    requires len > 0
    ensures Rank(len) < len && 100 * (Rank(len) + 1) >= 99 * len && 100 * Rank(len) < 99 * len
  {
  }

  function LatencyStats(samples: seq<real>): (r: Option<Summary>)
    ensures r.Some? <==> samples != []
  {
    if samples == [] then None
    else
      var sorted := Sort(samples);
      SortPermutes(samples);
      RankBounds(|samples|);
      Some(Summary(Mean(sorted), sorted[0], sorted[|samples| - 1], sorted[Rank(|samples|)]))
  }

  /** At least 99% of the samples are at or below the reported percentile, which is one
      of them, and fewer than 99% lie strictly below it. */
  lemma {:induction false} PercentileMeans(samples: seq<real>)
    requires samples != []
    ensures var p99 := LatencyStats(samples).value.p99;
      && p99 in samples
      && 100 * AtMost(samples, p99) >= 99 * |samples|
      && 100 * Below(samples, p99) < 99 * |samples|
  {
    var sorted := Sort(samples);
    SortPermutes(samples);
    RankBounds(|samples|);
    var p99 := sorted[Rank(|samples|)];
    SortCounts(samples, p99);
    CountsFromPosition(sorted, Rank(|samples|));
    SameMembers(samples, sorted);
  }

  lemma {:induction false} SumConcat(s: seq<real>, t: seq<real>)
    ensures Sum(s + t) == Sum(s) + Sum(t)
    ensures |s| == 1 ==> Sum(s) == s[0]
  {
    if s == [] {
      assert s + t == t;
    } else {
      assert (s + t)[1..] == s[1..] + t;
      SumConcat(s[1..], t);
    }
  }

  lemma {:induction false} MeanTimesLength(s: seq<real>)
    requires s != []
    ensures Mean(s) * (|s| as real) == Sum(s)
  {
  }

  /** The average times the number of samples is their sum. */
  lemma {:induction false} AverageIsAverage(samples: seq<real>)
    requires samples != []
    ensures LatencyStats(samples).value.avg * (|samples| as real) == Sum(samples)
  {
    hide Mean;
    hide Sort;
    hide Sum;
    SortPermutes(samples);
    MeanTimesLength(Sort(samples));
    SortCounts(samples, 0.0);
  }

  /** The extremes are samples that bound every sample, and the average lies between them. */
  lemma ExtremesBound(samples: seq<real>)
    requires samples != []
    ensures var s := LatencyStats(samples).value;
      && s.min in samples && s.max in samples
      && (forall x :: x in samples ==> s.min <= x <= s.max)
      && s.min <= s.avg <= s.max
  {
    var sorted := Sort(samples);
    hide Sort;
    hide Mean;
    hide Rank;
    SortPermutes(samples);
    RankBounds(|samples|);
    SameMembers(samples, sorted);
    AverageBetween(sorted);
  }

  lemma AverageBetween(sorted: seq<real>)
    requires Ascending(sorted) && sorted != []
    ensures sorted[0] <= Mean(sorted) <= sorted[|sorted| - 1]
  {
    var lo, hi := sorted[0], sorted[|sorted| - 1];
    var sum, n := Sum(sorted), |sorted| as real;
    AverageBounds(sorted, lo, hi);
    QuotientBounds(sum, n, lo, hi);
  }

  lemma SameMembers(s: seq<real>, t: seq<real>)
    requires multiset(s) == multiset(t)
    ensures forall x :: x in s <==> x in t
  {
    forall x ensures x in s <==> x in t {
      assert x in s <==> x in multiset(s);
      assert x in t <==> x in multiset(t);
    }
  }

  lemma QuotientBounds(sum: real, n: real, lo: real, hi: real)
    requires n > 0.0 && lo * n <= sum <= hi * n
    ensures lo <= sum / n <= hi
  {
    assert lo == lo * n / n <= sum / n <= hi * n / n == hi;
  }

  function Pool(parts: seq<seq<real>>): seq<real> {
    if parts == [] then [] else parts[0] + Pool(parts[1..])
  }

  lemma {:induction false} AtMostConcat(s: seq<real>, t: seq<real>, v: real)
    ensures AtMost(s + t, v) == AtMost(s, v) + AtMost(t, v)
  {
    if s == [] {
      assert s + t == t;
    } else {
      assert (s + t)[1..] == s[1..] + t;
      AtMostConcat(s[1..], t, v);
    }
  }

  lemma {:induction false} AtMostGrows(s: seq<real>, v: real, w: real)
    requires v <= w
    ensures AtMost(s, v) <= AtMost(s, w)
    ensures v < w ==> AtMost(s, v) <= Below(s, w)
  {
    if s == [] {
    } else {
      AtMostGrows(s[1..], v, w);
    }
  }

  lemma {:induction false} PoolCovered(parts: seq<seq<real>>, bound: real)
    requires forall i :: 0 <= i < |parts| ==> parts[i] != [] && LatencyStats(parts[i]).value.p99 <= bound
    ensures 100 * AtMost(Pool(parts), bound) >= 99 * |Pool(parts)|
  {
    hide LatencyStats;
    if parts == [] {
    } else {
      PoolCovered(parts[1..], bound);
      PercentileMeans(parts[0]);
      AtMostGrows(parts[0], LatencyStats(parts[0]).value.p99, bound);
      AtMostConcat(parts[0], Pool(parts[1..]), bound);
    }
  }

  /** The largest of the percentiles of the operations bounds the percentile of all their samples. */
  lemma {:induction false} LargestBoundsPooled(parts: seq<seq<real>>, bound: real)
    requires parts != [] && forall i :: 0 <= i < |parts| ==> parts[i] != [] && LatencyStats(parts[i]).value.p99 <= bound
    ensures Pool(parts) != [] && LatencyStats(Pool(parts)).value.p99 <= bound
  {
    hide LatencyStats;
    assert Pool(parts) == parts[0] + Pool(parts[1..]);
    PoolCovered(parts, bound);
    PercentileMeans(Pool(parts));
    var p99 := LatencyStats(Pool(parts)).value.p99;
    if bound < p99 {
      AtMostGrows(Pool(parts), bound, p99);
    }
  }

  // ---- Recording and merging ----

  /** Two clients' samples once the operations in `done` have been taken over. */
  function Combined(a: Samples, b: Samples, done: set<string>): Samples {
    map op | op in a.Keys + done :: SamplesOf(a, op) + if op in done then SamplesOf(b, op) else []
  }

  lemma CombineOne(a: Samples, b: Samples, done: set<string>, op: string)
    requires op in b && op !in done
    ensures Combined(a, b, done + {op}) == Combined(a, b, done)[op := SamplesOf(Combined(a, b, done), op) + b[op]]
  {
    assert SamplesOf(a, op) + [] == SamplesOf(a, op);
    assert [] + b[op] == b[op];
  }

  lemma CombineNone(a: Samples, b: Samples)
    ensures Combined(a, b, {}) == a
  {
    assert forall op :: op in a ==> a[op] + [] == a[op];
  }

  lemma CombineAll(a: Samples, b: Samples, op: string)
    ensures SamplesOf(Combined(a, b, b.Keys), op) == SamplesOf(a, op) + SamplesOf(b, op)
  {
  }

  class Stats {
    var merged: nat
    var totalMs: real
    var latSamples: Samples

    constructor ()
      ensures merged == 0 && totalMs == 0.0 && latSamples == map[]
    {
      merged, totalMs, latSamples := 0, 0.0, map[];
    }

    method RecordOp(op: string, latencyUs: real)
      modifies this`latSamples
      ensures SamplesOf(latSamples, op) == SamplesOf(old(latSamples), op) + [latencyUs]
      ensures forall o :: o != op ==> SamplesOf(latSamples, o) == SamplesOf(old(latSamples), o)
    {
      latSamples := latSamples[op := SamplesOf(latSamples, op) + [latencyUs]];
    }

    /** Take over another client's statistics. */
    method Merge(other: Stats)
      requires other != this && other.merged != 0
      modifies this
      ensures merged == old(merged) + other.merged
      ensures old(merged) == 0 ==> latSamples == other.latSamples && totalMs == other.totalMs
      ensures old(merged) != 0 ==>
        && totalMs == Longer(old(totalMs), other.totalMs)
        && latSamples == Combined(old(latSamples), other.latSamples, other.latSamples.Keys)
    {
      hide Combined;
      if merged == 0 {
        merged, totalMs, latSamples := other.merged, other.totalMs, other.latSamples;
      } else {
        totalMs := Longer(totalMs, other.totalMs);
        ExtendAll(other.latSamples);
        merged := merged + other.merged;
      }
    }

    /** Append every sample list of the given map, which is visited in an arbitrary order. */
    method ExtendAll(from: Samples)
      modifies this`latSamples
      ensures latSamples == Combined(old(latSamples), from, from.Keys)
    {
      hide Combined;
      ghost var before := latSamples;
      var left := from.Keys;
      CombineNone(before, from);
      assert from.Keys - left == {};
      while left != {}
        invariant left <= from.Keys
        invariant latSamples == Combined(before, from, from.Keys - left)
        decreases |left|
      {
        var op :| op in left;
        CombineOne(before, from, from.Keys - left, op);
        assert from.Keys - (left - {op}) == from.Keys - left + {op};
        latSamples := latSamples[op := SamplesOf(latSamples, op) + from[op]];
        left := left - {op};
      }
      assert from.Keys - left == from.Keys;
    }
  }

  function Longer(a: real, b: real): real {
    if a >= b then a else b
  }

  /** The samples of a list of clients, merged in the listed order: the first is taken
      over whole, each later one is added. */
  function MergedAll(clients: seq<Samples>): Samples {
    if clients == [] then map[]
    else if |clients| == 1 then clients[0]
    else Combined(MergedAll(clients[..|clients| - 1]), clients[|clients| - 1], clients[|clients| - 1].Keys)
  }

  function Union(sets: seq<set<string>>): set<string> {
    if sets == [] then {} else Union(sets[..|sets| - 1]) + sets[|sets| - 1]
  }

  // What one driver hands back: its statistics and the keys it inserted.
  datatype Report = Report(latSamples: Samples, totalMs: real, ikeys: set<string>)

  function SamplesPart(reports: seq<Option<Report>>): seq<Samples>
    requires forall i :: 0 <= i < |reports| ==> reports[i].Some?
  {
    seq(|reports|, i requires 0 <= i < |reports| => reports[i].value.latSamples)
  }

  function KeysPart(reports: seq<Option<Report>>): seq<set<string>>
    requires forall i :: 0 <= i < |reports| ==> reports[i].Some?
  {
    seq(|reports|, i requires 0 <= i < |reports| => reports[i].value.ikeys)
  }

  function TimesPart(reports: seq<Option<Report>>): seq<real>
    requires forall i :: 0 <= i < |reports| ==> reports[i].Some?
  {
    seq(|reports|, i requires 0 <= i < |reports| => reports[i].value.totalMs)
  }

  /** The longest of some run times, 0 when there is none. */
  function Longest(times: seq<real>): (r: real)
    ensures times == [] ==> r == 0.0
    ensures times != [] ==> r in times && forall i :: 0 <= i < |times| ==> times[i] <= r
  {
    if times == [] then 0.0
    else if |times| == 1 then times[0]
    else
      var init := times[..|times| - 1];
      assert forall i :: 0 <= i < |init| ==> times[i] == init[i];
      Longer(Longest(init), times[|times| - 1])
  }

  lemma {:induction false} LongestAppend(times: seq<real>, last: real)
    ensures Longest(times + [last]) == if times == [] then last else Longer(Longest(times), last)
  {
    assert (times + [last])[..|times|] == times;
  }

  lemma PartsAppend(reports: seq<Option<Report>>, k: nat)
    requires k < |reports| && forall i :: 0 <= i <= k ==> reports[i].Some?
    ensures SamplesPart(reports[..k + 1]) == SamplesPart(reports[..k]) + [reports[k].value.latSamples]
    ensures KeysPart(reports[..k + 1]) == KeysPart(reports[..k]) + [reports[k].value.ikeys]
    ensures TimesPart(reports[..k + 1]) == TimesPart(reports[..k]) + [reports[k].value.totalMs]
    ensures |TimesPart(reports[..k])| == k
  {
  }

  lemma {:induction false} MergedAppend(clients: seq<Samples>, last: Samples)
    ensures MergedAll(clients + [last]) == if clients == [] then last else Combined(MergedAll(clients), last, last.Keys)
  {
    assert (clients + [last])[..|clients|] == clients;
  }

  lemma {:induction false} UnionAppend(sets: seq<set<string>>, last: set<string>)
    ensures Union(sets + [last]) == Union(sets) + last
  {
    assert (sets + [last])[..|sets|] == sets;
  }

  method MergeReport(stats: Stats, report: Report)
    modifies stats
    ensures stats.merged == old(stats.merged) + 1
    ensures stats.totalMs == if old(stats.merged) == 0 then
      report.totalMs else Longer(old(stats.totalMs), report.totalMs)
    ensures stats.latSamples == if old(stats.merged) == 0 then report.latSamples
                                else Combined(old(stats.latSamples), report.latSamples, report.latSamples.Keys)
  {
    hide Combined;
    var cliStats := new Stats();
    cliStats.merged, cliStats.totalMs, cliStats.latSamples := 1, report.totalMs, report.latSamples;
    stats.Merge(cliStats);
  }

  /** `ycsb_bench` once its drivers are launched: wait for each in turn, and give up on
      the first that failed. */
  method YcsbBench(reports: seq<Option<Report>>) returns (stats: Stats, ikeys: set<string>, ok: bool)
    ensures ok <==> forall i :: 0 <= i < |reports| ==> reports[i].Some?
    ensures fresh(stats)
    ensures ok ==> stats.latSamples == MergedAll(SamplesPart(reports)) && ikeys == Union(KeysPart(reports))
    ensures ok ==> stats.merged == |reports| && stats.totalMs == Longest(TimesPart(reports))
  {
    hide Combined;
    hide MergedAll;
    hide Union;
    hide SamplesPart;
    hide KeysPart;
    hide TimesPart;
    hide Longest;
    stats := new Stats();
    ikeys := {};
    ok := true;
    NoParts();
    for k := 0 to |reports|
      invariant forall i :: 0 <= i < k ==> reports[i].Some?
      invariant stats.latSamples == MergedAll(SamplesPart(reports[..k])) && ikeys == Union(KeysPart(reports[..k]))
      invariant stats.totalMs == Longest(TimesPart(reports[..k]))
      invariant fresh(stats) && stats.merged == |SamplesPart(reports[..k])| == k
    {
      if reports[k].None? {
        return stats, ikeys, false;
      }
      var report := reports[k].value;
      PartsAppend(reports, k);
      MergedAppend(SamplesPart(reports[..k]), report.latSamples);
      UnionAppend(KeysPart(reports[..k]), report.ikeys);
      LongestAppend(TimesPart(reports[..k]), report.totalMs);
      MergeReport(stats, report);
      ikeys := ikeys + report.ikeys;
    }
    assert reports[..|reports|] == reports;
  }

  lemma NoParts()
    ensures SamplesPart([]) == [] && KeysPart([]) == [] && TimesPart([]) == []
    ensures MergedAll([]) == map[] && Union([]) == {} && Longest([]) == 0.0
  {
  }

  lemma {:induction false} MergedLast(clients: seq<Samples>, op: string)
    requires clients != []
    ensures SamplesOf(MergedAll(clients), op) ==
      SamplesOf(MergedAll(clients[..|clients| - 1]), op) + SamplesOf(clients[|clients| - 1], op)
  {
    if |clients| == 1 {
      assert clients[..0] == [];
      assert [] + SamplesOf(clients[0], op) == SamplesOf(clients[0], op);
    } else {
      CombineAll(MergedAll(clients[..|clients| - 1]), clients[|clients| - 1], op);
    }
  }

  function Without(clients: seq<Samples>, j: nat): seq<Samples>
    requires j < |clients|
  {
    clients[..j] + clients[j + 1..]
  }

  lemma WithoutMembers(clients: seq<Samples>, j: nat)
    requires j < |clients|
    ensures multiset(Without(clients, j)) == multiset(clients) - multiset{clients[j]}
  {
    assert clients == clients[..j] + [clients[j]] + clients[j + 1..];
  }

  lemma {:induction false} MergedWithout(clients: seq<Samples>, j: nat, op: string)
    requires j < |clients|
    ensures multiset(SamplesOf(MergedAll(clients), op)) ==
      multiset(SamplesOf(MergedAll(Without(clients, j)), op)) + multiset(SamplesOf(clients[j], op))
    decreases |clients|
  {
    hide MergedAll;
    hide SamplesOf;
    var n := |clients| - 1;
    var init := clients[..n];
    MergedLast(clients, op);
    if j == n {
      assert Without(clients, j) == init;
    } else {
      MergedWithout(init, j, op);
      var less := Without(clients, j);
      assert less[..|less| - 1] == Without(init, j) && less[|less| - 1] == clients[n];
      MergedLast(less, op);
    }
  }

  /** Merging keeps every operation's samples, with multiplicity, whatever the order of the clients. */
  lemma {:induction false} MergeOrderIrrelevant(xs: seq<Samples>, ys: seq<Samples>, op: string)
    requires multiset(xs) == multiset(ys)
    ensures multiset(SamplesOf(MergedAll(xs), op)) == multiset(SamplesOf(MergedAll(ys), op))
    decreases |xs|
  {
    hide MergedAll;
    hide SamplesOf;
    assert |multiset(xs)| == |xs| && |multiset(ys)| == |ys|;
    if xs == [] {
      assert ys == [];
    } else {
      var n := |xs| - 1;
      assert xs[n] in multiset(ys);
      var j :| 0 <= j < |ys| && ys[j] == xs[n];
      WithoutMembers(xs, n);
      WithoutMembers(ys, j);
      assert Without(xs, n) == xs[..n];
      hide Without;
      MergeOrderIrrelevant(xs[..n], Without(ys, j), op);
      MergedWithout(xs, n, op);
      MergedWithout(ys, j, op);
    }
  }
}
