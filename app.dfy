/** The page's data flow around the render: the load effect keeps the
    response only when it is an array, computes the city stats from it, and
    leaves everything empty when the request fails; the render then shows
    the heat points, the first seven city stats and the first five jobs. */
module App {
  import opened Values
  import opened CityCounts
  import opened HeatPoints
  import opened JobSummary
  import opened Server

  /** `res.data`: an array of job objects, or any other JSON value. */
  datatype ResponseData = JobArray(items: seq<TransportJob>) | NotAnArray

  /** Any failure of the request; it is only logged. */
  datatype FetchError = FetchError(detail: string)

  /** `Array.isArray(res.data) ? res.data : []` */
  function JobsOf(data: ResponseData): seq<TransportJob> {
    if data.JobArray? then data.items else []
  }

  /** The load effect: starting from the initial `[]` state, a successful
      response sets `jobs` and `stats`; a failed one leaves both empty. */
  method Load(fetch: Result<ResponseData, FetchError>) returns (jobs: seq<TransportJob>, stats: seq<CityStat>)
    ensures fetch.Err? ==> jobs == [] && stats == []
    ensures fetch.Ok? && fetch.value.NotAnArray? ==> jobs == [] && stats == []
    ensures fetch.Ok? && fetch.value.JobArray? ==> jobs == fetch.value.items && stats == StatsOf(jobs)
  {
    jobs, stats := [], [];
    match fetch
    case Ok(res) =>
      var data := JobsOf(res);
      jobs := data;
      stats := ComputeCityCounts(data);
    case Err(_) =>
  }

  const ChartBars: nat := 7
  const LatestShown: nat := 5

  /** The data the render hands to the map, the chart and the list. */
  datatype View = View(jobsMapped: nat, points: seq<HeatPoint>, chart: seq<CityStat>, latest: seq<JobChip>)

  /** `stats.slice(0, 7)`: the bars of the chart. */
  function Chart(stats: seq<CityStat>): (c: seq<CityStat>)
    ensures c <= stats
    ensures |c| == if |stats| <= ChartBars then |stats| else ChartBars
  {
    if |stats| <= ChartBars then stats else stats[..ChartBars]
  }

  function Render(jobs: seq<TransportJob>, stats: seq<CityStat>): (v: View)
    ensures v.jobsMapped == |jobs| && |v.points| <= |jobs|
    ensures v.points == HeatPoints.HeatPoints(jobs)
    ensures |v.chart| <= ChartBars && v.chart <= stats
    ensures |v.chart| == if |stats| <= ChartBars then |stats| else ChartBars
    ensures v.chart == Chart(stats)
    ensures |v.latest| <= LatestShown && |v.latest| <= |jobs|
    ensures |v.latest| == LatestShown || |v.latest| == |jobs|
    ensures forall i :: 0 <= i < |v.latest| ==> v.latest[i] == Summary(jobs[i])
  {
    var shown := if |jobs| <= LatestShown then |jobs| else LatestShown;
    View(
      |jobs|,
      HeatPoints.HeatPoints(jobs),
      Chart(stats),
      seq(shown, i requires 0 <= i < shown => Summary(jobs[i])))
  }

  /** The chart shows the largest counts: no city left off it has more jobs
      than a city on it. */
  lemma ChartShowsLargest(jobs: seq<TransportJob>)
    ensures var stats := StatsOf(jobs); var chart := Render(jobs, stats).chart;
      forall i, j :: 0 <= i < |chart| <= j < |stats| ==> chart[i].count >= stats[j].count
  {
    var stats := StatsOf(jobs);
    StatsSorted(jobs);
    PrefixOfSorted(Chart(stats), stats);
  }

  /** A prefix of a list sorted by descending count holds the largest counts. */
  lemma PrefixOfSorted(chart: seq<CityStat>, stats: seq<CityStat>)
    requires chart <= stats
    requires forall i, j :: 0 <= i < j < |stats| ==> stats[i].count >= stats[j].count
    ensures forall i, j :: 0 <= i < |chart| <= j < |stats| ==> chart[i].count >= stats[j].count
  {
    forall i, j | 0 <= i < |chart| <= j < |stats| ensures chart[i].count >= stats[j].count {
      assert chart[i] == stats[i];
    }
  }

  /** From the store to the map: the points for a successful `/api/jobs`
      response are the stored documents with both coordinates truthy, in store
      order, each weighted by its stored weight when that is truthy and by 1
      otherwise; the page's own `|| 1` never applies, because the handler has
      already replaced every falsy weight. */
  lemma StoredWeightsReachMap(stored: seq<StoredJob>)
    ensures var jobs := ListJobs(Ok(stored)).body.jobs;
      var idx, points := Kept(jobs, |jobs|), HeatPoints.HeatPoints(jobs);
      && |idx| == |points|
      && (forall k :: 0 <= k < |idx| ==>
            && idx[k] < |stored|
            && stored[idx[k]].lat.Truthy() && stored[idx[k]].lng.Truthy()
            && points[k] == HeatPoint(stored[idx[k]].lat.v, stored[idx[k]].lng.v, NumOr(stored[idx[k]].job_weight, 1.0)))
      && (forall i :: 0 <= i < |stored| && stored[i].lat.Truthy() && stored[i].lng.Truthy() ==> i in idx)
  {
    var jobs := ListJobs(Ok(stored)).body.jobs;
    PointsFromKept(jobs, |jobs|);
    assert jobs[..|jobs|] == jobs;
    var idx := Kept(jobs, |jobs|);
    forall k | 0 <= k < |idx|
      ensures HeatPoints.HeatPoints(jobs)[k] ==
        HeatPoint(stored[idx[k]].lat.v, stored[idx[k]].lng.v, NumOr(stored[idx[k]].job_weight, 1.0))
    {
      assert jobs[idx[k]] == ToTransport(stored[idx[k]]);
    }
  }
}
