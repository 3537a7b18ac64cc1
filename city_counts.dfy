/** The page's "Top Cities" aggregate: a `forEach` over the jobs counts each
    truthy location in a plain object, `Object.entries` lists the object's
    keys, and a stable sort orders the `{ city, count }` pairs by descending
    count.

    The order `Object.entries` produces is modelled as ECMAScript's
    OrdinaryOwnPropertyKeys prescribes for an ordinary object: keys that are
    array indices (canonical decimal integers below 2^32 - 1) first, in
    ascending numeric order, then every other key in the order it was
    created. */
module CityCounts {
  import opened Values
  import opened StableSort

  /** One bar of the chart: `{ city, count }`. */
  datatype CityStat = CityStat(city: string, count: nat)

  /** `if (job.location)`: only jobs with a nonempty location are counted. */
  predicate Located(job: TransportJob) {
    job.location.Truthy()
  }

  /** Number of jobs whose location is exactly `city` (no case or space folding). */
  function Count(jobs: seq<TransportJob>, city: string): nat {
    if |jobs| == 0 then 0
    else
      var last := jobs[|jobs| - 1];
      Count(jobs[..|jobs| - 1], city) + (if Located(last) && last.location.s == city then 1 else 0)
  }

  /** Number of jobs with a nonempty location. */
  function NumLocated(jobs: seq<TransportJob>): nat {
    if |jobs| == 0 then 0
    else NumLocated(jobs[..|jobs| - 1]) + (if Located(jobs[|jobs| - 1]) then 1 else 0)
  }

  /** The contents of `cityStats` after the `forEach` has visited `jobs`. */
  function Tally(jobs: seq<TransportJob>): map<string, nat> {
    if |jobs| == 0 then map[]
    else
      var m := Tally(jobs[..|jobs| - 1]);
      var last := jobs[|jobs| - 1];
      if Located(last) then
        m[last.location.s := (if last.location.s in m then m[last.location.s] else 0) + 1]
      else m
  }

  /** The keys of `cityStats` in the order the `forEach` created them. */
  function FirstSeen(jobs: seq<TransportJob>): seq<string> {
    if |jobs| == 0 then []
    else
      var created := FirstSeen(jobs[..|jobs| - 1]);
      var last := jobs[|jobs| - 1];
      if Located(last) && last.location.s !in created then created + [last.location.s]
      else created
  }

  lemma {:induction false} TallyFacts(jobs: seq<TransportJob>)
    ensures forall c :: c in Tally(jobs) <==> c in FirstSeen(jobs)
    ensures forall c :: c in Tally(jobs) <==> Count(jobs, c) > 0
    ensures forall c :: c in Tally(jobs) ==> Tally(jobs)[c] == Count(jobs, c)
    ensures Distinct(FirstSeen(jobs))
  {
    if |jobs| > 0 {
      TallyFacts(jobs[..|jobs| - 1]);
    }
  }

  /** `Count` means what it says: a positive count is witnessed by a job at that location. */
  lemma {:induction false} CountPositive(jobs: seq<TransportJob>, city: string)
    ensures Count(jobs, city) > 0 <==>
      exists i :: 0 <= i < |jobs| && Located(jobs[i]) && jobs[i].location.s == city
  {
    if |jobs| > 0 {
      var init := jobs[..|jobs| - 1];
      CountPositive(init, city);
      if Count(init, city) > 0 {
        var i :| 0 <= i < |init| && Located(init[i]) && init[i].location.s == city;
        assert jobs[i] == init[i];
      }
      if exists i :: 0 <= i < |jobs| && Located(jobs[i]) && jobs[i].location.s == city {
        var i :| 0 <= i < |jobs| && Located(jobs[i]) && jobs[i].location.s == city;
        if i < |init| {
          assert init[i] == jobs[i];
        }
      }
    }
  }

  // ---------------------------------------------------------------- Object.entries order

  predicate IsDigit(c: char) {
    '0' <= c <= '9'
  }

  /** The number a string of decimal digits denotes. */
  function DecimalValue(k: string): nat {
    if |k| == 0 then 0
    else
      var last := k[|k| - 1];
      DecimalValue(k[..|k| - 1]) * 10 + (if IsDigit(last) then last as int - '0' as int else 0)
  }

  /** 2^32 - 2, the largest array index. */
  const MaxArrayIndex: nat := 4294967294

  /** A canonical decimal numeral of an array index: digits only, no leading
      zero unless it is "0", and below 2^32 - 1. */
  predicate IsArrayIndex(k: string) {
    && |k| > 0
    && (forall i :: 0 <= i < |k| ==> IsDigit(k[i]))
    && (|k| == 1 || k[0] != '0')
    && DecimalValue(k) <= MaxArrayIndex
  }

  /** The elements `x` of `s` with `p(x) == want`, in order. */
  function Filter<T>(s: seq<T>, p: T -> bool, want: bool): seq<T> {
    if |s| == 0 then []
    else (if p(s[0]) == want then [s[0]] else []) + Filter(s[1..], p, want)
  }

  function IndexKeys(created: seq<string>): seq<string> {
    Filter(created, IsArrayIndex, true)
  }

  function NamedKeys(created: seq<string>): seq<string> {
    Filter(created, IsArrayIndex, false)
  }

  function NumericOrder(k: string): int {
    DecimalValue(k)
  }

  /** The key order `Object.entries` reports for keys created in the order `created`. */
  function OwnKeys(created: seq<string>): seq<string> {
    Sort(IndexKeys(created), NumericOrder) + NamedKeys(created)
  }

  lemma {:induction false} FilterKeeps<T>(s: seq<T>, p: T -> bool, want: bool)
    ensures forall x <- Filter(s, p, want) :: p(x) == want
  {
    if |s| > 0 {
      FilterKeeps(s[1..], p, want);
    }
  }

  /** The elements that pass and the elements that fail together are all of `s`. */
  lemma {:induction false} FilterSplit<T>(s: seq<T>, p: T -> bool)
    ensures multiset(Filter(s, p, true)) + multiset(Filter(s, p, false)) == multiset(s)
  {
    if |s| > 0 {
      FilterSplit(s[1..], p);
      assert s == [s[0]] + s[1..];
    }
  }

  lemma SplitKeysClassified(created: seq<string>)
    ensures forall k <- IndexKeys(created) :: IsArrayIndex(k)
    ensures forall k <- NamedKeys(created) :: !IsArrayIndex(k)
  {
    FilterKeeps(created, IsArrayIndex, true);
    FilterKeeps(created, IsArrayIndex, false);
  }

  lemma SplitKeysPerm(created: seq<string>)
    ensures multiset(IndexKeys(created)) + multiset(NamedKeys(created)) == multiset(created)
  {
    FilterSplit(created, IsArrayIndex);
  }

  /** `Object.entries` lists every key exactly once: array indices first in
      ascending numeric order, then the other keys in creation order. */
  lemma OwnKeysOrder(created: seq<string>)
    ensures multiset(OwnKeys(created)) == multiset(created)
    ensures |IndexKeys(created)| <= |OwnKeys(created)| == |created|
    ensures var r, n := OwnKeys(created), |IndexKeys(created)|;
      && (forall i :: 0 <= i < n ==> IsArrayIndex(r[i]))
      && (forall i, j :: 0 <= i < j < n ==> DecimalValue(r[i]) <= DecimalValue(r[j]))
      && r[n..] == NamedKeys(created)
      && (forall i :: n <= i < |r| ==> !IsArrayIndex(r[i]))
  {
    var index := IndexKeys(created);
    var sorted := Sort(index, NumericOrder);
    SplitKeysPerm(created);
    SplitKeysClassified(created);
    SortPerm(index, NumericOrder);
    SortSorted(index, NumericOrder);
    assert |sorted| == |multiset(sorted)| == |index|;
    assert |multiset(created)| == |created|;
    var r := OwnKeys(created);
    forall i | 0 <= i < |sorted| ensures IsArrayIndex(r[i]) {
      assert r[i] == sorted[i] && sorted[i] in multiset(index);
    }
    forall i, j | 0 <= i < j < |sorted| ensures DecimalValue(r[i]) <= DecimalValue(r[j]) {
      assert r[i] == sorted[i] && r[j] == sorted[j];
      assert NumericOrder(sorted[i]) <= NumericOrder(sorted[j]);
    }
    assert r[|sorted|..] == NamedKeys(created);
  }

  // ---------------------------------------------------------------- entries and sums

  /** `Object.entries(m).map(([city, count]) => ({ city, count }))`, the keys in the order `keys`. */
  function Entries(m: map<string, nat>, keys: seq<string>): seq<CityStat> {
    seq(|keys|, i requires 0 <= i < |keys| => CityStat(keys[i], Get(m, keys[i])))
  }

  /** `m[k]`; every key `Entries` is asked about is in `m` (see `StatsMeaning`). */
  function Get(m: map<string, nat>, k: string): nat {
    if k in m then m[k] else 0
  }

  /** The comparator `(a, b) => b.count - a.count` as a sort key. */
  function ByCountDesc(s: CityStat): int {
    -(s.count as int)
  }

  /** The sum of the counts. */
  function Total(stats: seq<CityStat>): nat {
    if |stats| == 0 then 0 else stats[0].count + Total(stats[1..])
  }

  function CitySet(stats: seq<CityStat>): set<string> {
    set s <- stats :: s.city
  }

  /** The `stats` the page stores for the loaded `jobs`. */
  function StatsOf(jobs: seq<TransportJob>): seq<CityStat> {
    Sort(Entries(Tally(jobs), OwnKeys(FirstSeen(jobs))), ByCountDesc)
  }

  lemma {:induction false} TotalAppend(a: seq<CityStat>, b: seq<CityStat>)
    ensures Total(a + b) == Total(a) + Total(b)
  {
    if |a| > 0 {
      TotalAppend(a[1..], b);
      assert (a + b)[1..] == a[1..] + b;
    } else {
      assert a + b == b;
    }
  }

  lemma TotalSplitAt(s: seq<CityStat>, i: nat)
    requires i < |s|
    ensures Total(s) == Total(s[..i]) + s[i].count + Total(s[i + 1..])
  {
    assert s == s[..i] + ([s[i]] + s[i + 1..]);
    TotalAppend(s[..i], [s[i]] + s[i + 1..]);
  }

  /** The sum of the counts does not depend on their order. */
  lemma {:induction false} TotalPerm(a: seq<CityStat>, b: seq<CityStat>)
    requires multiset(a) == multiset(b)
    ensures Total(a) == Total(b)
    decreases |a|
  {
    if |a| > 0 {
      assert a[0] in multiset(b);
      var i :| 0 <= i < |b| && b[i] == a[0];
      RemoveAt(b, i);
      assert a == [a[0]] + a[1..];
      assert multiset(a[1..]) == multiset(a) - multiset{a[0]};
      TotalPerm(a[1..], b[..i] + b[i + 1..]);
      TotalSplitAt(b, i);
      TotalAppend(b[..i], b[i + 1..]);
    } else {
      assert |b| == |multiset(b)| == 0;
    }
  }

  lemma EntriesAppend(m: map<string, nat>, a: seq<string>, b: seq<string>)
    ensures Entries(m, a + b) == Entries(m, a) + Entries(m, b)
  {
  }

  /** How often an entry occurs: as often as its city among the keys, when it
      carries that city's count. */
  lemma {:induction false} EntriesOccurrences(m: map<string, nat>, a: seq<string>, e: CityStat)
    ensures multiset(Entries(m, a))[e] == if e.count == Get(m, e.city) then multiset(a)[e.city] else 0
  {
    if |a| > 0 {
      EntriesOccurrences(m, a[1..], e);
      assert a == [a[0]] + a[1..];
      EntriesAppend(m, [a[0]], a[1..]);
    }
  }

  /** Listing the same keys in another order lists the same entries. */
  lemma EntriesPerm(m: map<string, nat>, a: seq<string>, b: seq<string>)
    requires multiset(a) == multiset(b)
    ensures multiset(Entries(m, a)) == multiset(Entries(m, b))
  {
    forall e ensures multiset(Entries(m, a))[e] == multiset(Entries(m, b))[e] {
      EntriesOccurrences(m, a, e);
      EntriesOccurrences(m, b, e);
    }
  }

  /** One more job at a location already seen adds one to that location's count. */
  lemma BumpTotal(m: map<string, nat>, created: seq<string>, p: nat)
    requires p < |created| && created[p] in m
    requires Distinct(created)
    ensures Total(Entries(m[created[p] := m[created[p]] + 1], created)) == Total(Entries(m, created)) + 1
  {
    var loc := created[p];
    var before, after := Entries(m, created), Entries(m[loc := m[loc] + 1], created);
    assert after[..p] == before[..p];
    assert after[p + 1..] == before[p + 1..];
    TotalSplitAt(before, p);
    TotalSplitAt(after, p);
  }

  /** The counts in creation order add up to the number of located jobs. */
  lemma {:induction false} TotalInCreationOrder(jobs: seq<TransportJob>)
    ensures Total(Entries(Tally(jobs), FirstSeen(jobs))) == NumLocated(jobs)
  {
    if |jobs| > 0 {
      var init := jobs[..|jobs| - 1];
      var last := jobs[|jobs| - 1];
      TotalInCreationOrder(init);
      TallyFacts(init);
      var m, created := Tally(init), FirstSeen(init);
      if Located(last) {
        var loc := last.location.s;
        assert jobs[..|jobs| - 1] == init;
        if loc !in created {
          var m' := m[loc := 1];
          assert Tally(jobs) == m' && FirstSeen(jobs) == created + [loc];
          assert Entries(m', created) == Entries(m, created);
          EntriesAppend(m', created, [loc]);
          assert Entries(m', [loc]) == [CityStat(loc, 1)];
          TotalAppend(Entries(m', created), [CityStat(loc, 1)]);
        } else {
          var p :| 0 <= p < |created| && created[p] == loc;
          BumpTotal(m, created, p);
        }
      }
    }
  }

  // ---------------------------------------------------------------- the aggregate

  /** Every entry the page lists is a key of `cityStats` with its count. */
  lemma EntriesOfStats(jobs: seq<TransportJob>)
    ensures var keys := OwnKeys(FirstSeen(jobs));
      && multiset(StatsOf(jobs)) == multiset(Entries(Tally(jobs), keys))
      && multiset(keys) == multiset(FirstSeen(jobs))
      && Distinct(keys)
      && (forall k <- keys :: k in Tally(jobs))
  {
    var m, created := Tally(jobs), FirstSeen(jobs);
    var keys := OwnKeys(created);
    TallyFacts(jobs);
    OwnKeysOrder(created);
    SortPerm(Entries(m, keys), ByCountDesc);
    DistinctPerm(created, keys);
    forall k | k in keys ensures k in m {
      assert k in multiset(keys);
    }
  }

  /** The chart's pairs come out by descending count. */
  lemma StatsSorted(jobs: seq<TransportJob>)
    ensures var stats := StatsOf(jobs);
      forall i, j :: 0 <= i < j < |stats| ==> stats[i].count >= stats[j].count
  {
    var stats := StatsOf(jobs);
    SortSorted(Entries(Tally(jobs), OwnKeys(FirstSeen(jobs))), ByCountDesc);
    forall i, j | 0 <= i < j < |stats| ensures stats[i].count >= stats[j].count {
      assert ByCountDesc(stats[i]) <= ByCountDesc(stats[j]);
    }
  }

  /** Every pair counts the jobs at exactly its city, and that count is positive. */
  lemma StatsCounted(jobs: seq<TransportJob>)
    ensures forall s <- StatsOf(jobs) :: s.count == Count(jobs, s.city) && s.count > 0
  {
    TallyFacts(jobs);
    EntriesOfStats(jobs);
    var m, keys := Tally(jobs), OwnKeys(FirstSeen(jobs));
    var entries := Entries(m, keys);
    forall s | s in StatsOf(jobs) ensures s.count == Count(jobs, s.city) && s.count > 0 {
      assert s in multiset(entries);
      var i :| 0 <= i < |entries| && entries[i] == s;
      assert keys[i] in m;
    }
  }

  /** Every city with a job has a pair. */
  lemma StatsCoverCities(jobs: seq<TransportJob>)
    ensures forall c :: Count(jobs, c) > 0 ==> c in CitySet(StatsOf(jobs))
  {
    TallyFacts(jobs);
    EntriesOfStats(jobs);
    var m, keys := Tally(jobs), OwnKeys(FirstSeen(jobs));
    var entries := Entries(m, keys);
    forall c | Count(jobs, c) > 0 ensures c in CitySet(StatsOf(jobs)) {
      assert c in multiset(keys);
      var i :| 0 <= i < |keys| && keys[i] == c;
      assert entries[i] in multiset(StatsOf(jobs));
    }
  }

  /** Entries for distinct keys name distinct cities, in any order. */
  lemma EntriesCitiesDistinct(m: map<string, nat>, keys: seq<string>, stats: seq<CityStat>)
    requires Distinct(keys) && multiset(stats) == multiset(Entries(m, keys))
    ensures forall i, j :: 0 <= i < j < |stats| ==> stats[i].city != stats[j].city
  {
    var entries := Entries(m, keys);
    DistinctPerm(entries, stats);
    forall i, j | 0 <= i < j < |stats| ensures stats[i].city != stats[j].city {
      assert stats[i] in multiset(entries) && stats[j] in multiset(entries);
    }
  }

  /** No city has two pairs. */
  lemma StatsCitiesDistinct(jobs: seq<TransportJob>)
    ensures var stats := StatsOf(jobs);
      forall i, j :: 0 <= i < j < |stats| ==> stats[i].city != stats[j].city
  {
    EntriesOfStats(jobs);
    EntriesCitiesDistinct(Tally(jobs), OwnKeys(FirstSeen(jobs)), StatsOf(jobs));
  }

  /** One pair per distinct nonempty location, each with the number of jobs at
      exactly that location, and no other pairs. */
  lemma StatsMeaning(jobs: seq<TransportJob>)
    ensures var stats := StatsOf(jobs);
      && (forall s <- stats :: s.count == Count(jobs, s.city) && s.count > 0)
      && (forall c :: c in CitySet(stats) <==> Count(jobs, c) > 0)
      && (forall i, j :: 0 <= i < j < |stats| ==> stats[i].city != stats[j].city)
  {
    StatsCounted(jobs);
    StatsCoverCities(jobs);
    StatsCitiesDistinct(jobs);
  }

  /** The sum of all counts is the number of jobs with a nonempty location. */
  lemma StatsTotal(jobs: seq<TransportJob>)
    ensures Total(StatsOf(jobs)) == NumLocated(jobs)
  {
    EntriesOfStats(jobs);
    var m, created := Tally(jobs), FirstSeen(jobs);
    var entries := Entries(m, OwnKeys(created));
    TotalPerm(StatsOf(jobs), entries);
    EntriesPerm(m, OwnKeys(created), created);
    TotalPerm(entries, Entries(m, created));
    TotalInCreationOrder(jobs);
  }

  /** Ties keep `Object.entries` order, and that settles the order completely:
      the aggregate is the one sequence sorted by descending count that lists
      the pairs of each count in `Object.entries` order. */
  lemma StatsTieOrder(jobs: seq<TransportJob>, t: seq<CityStat>)
    ensures var entries := Entries(Tally(jobs), OwnKeys(FirstSeen(jobs)));
      forall k :: WithKey(StatsOf(jobs), ByCountDesc, k) == WithKey(entries, ByCountDesc, k)
    ensures var entries := Entries(Tally(jobs), OwnKeys(FirstSeen(jobs)));
      (forall i, j :: 0 <= i < j < |t| ==> t[i].count >= t[j].count) &&
      (forall k :: WithKey(t, ByCountDesc, k) == WithKey(entries, ByCountDesc, k))
      ==> t == StatsOf(jobs)
  {
    var entries := Entries(Tally(jobs), OwnKeys(FirstSeen(jobs)));
    forall k ensures WithKey(StatsOf(jobs), ByCountDesc, k) == WithKey(entries, ByCountDesc, k) {
      SortStable(entries, ByCountDesc, k);
    }
    if (forall i, j :: 0 <= i < j < |t| ==> t[i].count >= t[j].count) &&
       (forall k :: WithKey(t, ByCountDesc, k) == WithKey(entries, ByCountDesc, k))
    {
      assert Sorted(t, ByCountDesc);
      SortUnique(entries, t, ByCountDesc);
    }
  }

  /** A job with an empty or absent location changes nothing, wherever it stands. */
  lemma UnlocatedIgnored(a: seq<TransportJob>, job: TransportJob, b: seq<TransportJob>)
    requires !Located(job)
    ensures StatsOf(a + [job] + b) == StatsOf(a + b)
  {
    UnlocatedSkipped(a, job, b);
  }

  lemma {:induction false} UnlocatedSkipped(a: seq<TransportJob>, job: TransportJob, b: seq<TransportJob>)
    requires !Located(job)
    ensures Tally(a + [job] + b) == Tally(a + b)
    ensures FirstSeen(a + [job] + b) == FirstSeen(a + b)
    decreases |b|
  {
    var with, without := a + [job] + b, a + b;
    if |b| == 0 {
      assert with[..|with| - 1] == without;
    } else {
      var b' := b[..|b| - 1];
      UnlocatedSkipped(a, job, b');
      assert with[..|with| - 1] == a + [job] + b';
      assert without[..|without| - 1] == a + b';
      assert with[|with| - 1] == without[|without| - 1];
    }
  }

  /** The `forEach` loop over the response data, then `Object.entries`, `map`
      and `sort`. */
  method ComputeCityCounts(data: seq<TransportJob>) returns (stats: seq<CityStat>)
    ensures stats == StatsOf(data)
  {
    var cityStats: map<string, nat> := map[];
    var created: seq<string> := [];
    var i := 0;
    while i < |data|
      invariant 0 <= i <= |data|
      invariant cityStats == Tally(data[..i])
      invariant created == FirstSeen(data[..i])
    {
      var job := data[i];
      assert data[..i + 1][..i] == data[..i];
      if job.location.Truthy() {
        var loc := job.location.s;
        TallyFacts(data[..i]);
        if loc !in cityStats {
          created := created + [loc];
        }
        cityStats := cityStats[loc := (if loc in cityStats then cityStats[loc] else 0) + 1];
      }
      i := i + 1;
    }
    assert data[..i] == data;
    stats := Sort(Entries(cityStats, OwnKeys(created)), ByCountDesc);
  }

  /** A job that only has a location, for the scenario below. */
  function JobAt(loc: string): TransportJob {
    TransportJob(NoStr, NoStr, Str(loc), NoNum, NoNum, NoStr, Num(1.0))
  }

  /** City names are no array indices, so they keep their creation order. */
  lemma NamedCitiesKeepOrder()
    ensures OwnKeys(["Bangalore", "Pune"]) == ["Bangalore", "Pune"]
  {
    var created := ["Bangalore", "Pune"];
    assert !IsArrayIndex("Bangalore") by { assert !IsDigit("Bangalore"[0]); }
    assert !IsArrayIndex("Pune") by { assert !IsDigit("Pune"[0]); }
    var rest := ["Pune"];
    assert created[1..] == rest && rest[1..] == [];
    assert Filter(rest, IsArrayIndex, false) == [rest[0]] + Filter([], IsArrayIndex, false);
    assert Filter(rest, IsArrayIndex, true) == [] + Filter([], IsArrayIndex, true);
  }

  /** Two jobs in "Bangalore" and one in "Pune" give `[("Bangalore", 2), ("Pune", 1)]`. */
  lemma TwoCitiesScenario()
    ensures StatsOf([JobAt("Bangalore"), JobAt("Bangalore"), JobAt("Pune")]) ==
      [CityStat("Bangalore", 2), CityStat("Pune", 1)]
  {
    var b, p := JobAt("Bangalore"), JobAt("Pune");
    var jobs := [b, b, p];
    var m, created := map["Bangalore" := 2, "Pune" := 1], ["Bangalore", "Pune"];
    TwoCitiesTally();
    NamedCitiesKeepOrder();
    var entries := [CityStat("Bangalore", 2), CityStat("Pune", 1)];
    assert Entries(m, created) == entries;
    assert entries[..1] == [entries[0]] && [entries[0]][..0] == [];
    assert Sort([entries[0]], ByCountDesc) == [entries[0]];
    assert Sort(entries, ByCountDesc) == Insert([entries[0]], entries[1], ByCountDesc);
    assert ByCountDesc(entries[1]) >= ByCountDesc(entries[0]);
    assert Insert([entries[0]], entries[1], ByCountDesc) == [entries[0]] + Insert([], entries[1], ByCountDesc);
    assert StatsOf(jobs) == Sort(Entries(m, created), ByCountDesc);
  }

  /** The loop's map and creation order for the scenario above. */
  lemma TwoCitiesTally()
    ensures var jobs := [JobAt("Bangalore"), JobAt("Bangalore"), JobAt("Pune")];
      && FirstSeen(jobs) == ["Bangalore", "Pune"]
      && Tally(jobs) == map["Bangalore" := 2, "Pune" := 1]
  {
    var b, p := JobAt("Bangalore"), JobAt("Pune");
    var jobs := [b, b, p];
    assert jobs[..2] == [b, b] && [b, b][..1] == [b] && [b][..0] == [];
    assert FirstSeen([b]) == ["Bangalore"] && Tally([b]) == map["Bangalore" := 1];
    assert FirstSeen([b, b]) == ["Bangalore"] && Tally([b, b]) == map["Bangalore" := 2];
    assert "Pune" != "Bangalore";
  }
}
