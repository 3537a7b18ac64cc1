/** The heat-layer points the page derives from the loaded jobs:
    `jobs.filter(j => j.lat && j.lng).map(j => [j.lat, j.lng, j.weight || 1])`. */
module HeatPoints {
  import opened Values

  /** `[lat, lng, weight]` as the heat layer receives it. */
  datatype HeatPoint = HeatPoint(lat: real, lng: real, weight: real)

  /** `j.lat && j.lng`: both coordinates present and nonzero. */
  predicate OnMap(job: TransportJob) {
    job.lat.Truthy() && job.lng.Truthy()
  }

  function ToPoint(job: TransportJob): HeatPoint
    requires OnMap(job)
  {
    HeatPoint(job.lat.v, job.lng.v, NumOr(job.weight, 1.0))
  }

  function HeatPoints(jobs: seq<TransportJob>): (points: seq<HeatPoint>)
    ensures |points| <= |jobs|
    ensures forall p <- points :: p.lat != 0.0 && p.lng != 0.0 && p.weight != 0.0
  {
    if |jobs| == 0 then []
    else (if OnMap(jobs[0]) then [ToPoint(jobs[0])] else []) + HeatPoints(jobs[1..])
  }

  /** Number of jobs with both coordinates truthy. */
  function NumOnMap(jobs: seq<TransportJob>): nat {
    if |jobs| == 0 then 0 else (if OnMap(jobs[0]) then 1 else 0) + NumOnMap(jobs[1..])
  }

  /** Filtering and mapping work job by job: the points of a concatenation are
      the points of each part, in order. */
  lemma {:induction false} HeatPointsAppend(a: seq<TransportJob>, b: seq<TransportJob>)
    ensures HeatPoints(a + b) == HeatPoints(a) + HeatPoints(b)
  {
    if |a| == 0 {
      assert a + b == b;
    } else {
      var ab := a + b;
      assert ab[0] == a[0] && ab[1..] == a[1..] + b;
      HeatPointsAppend(a[1..], b);
      var head := if OnMap(a[0]) then [ToPoint(a[0])] else [];
      assert HeatPoints(ab) == head + (HeatPoints(a[1..]) + HeatPoints(b));
    }
  }

  /** One point per job with both coordinates truthy, and no more. */
  lemma {:induction false} HeatPointsCount(jobs: seq<TransportJob>)
    ensures |HeatPoints(jobs)| == NumOnMap(jobs)
  {
    if |jobs| > 0 {
      HeatPointsCount(jobs[1..]);
    }
  }

  /** Indices below `n` of the jobs with both coordinates truthy, ascending. */
  function Kept(jobs: seq<TransportJob>, n: nat): seq<nat>
    requires n <= |jobs|
  {
    if n == 0 then []
    else Kept(jobs, n - 1) + (if OnMap(jobs[n - 1]) then [n - 1] else [])
  }

  /** The points, read back as jobs: the k-th point is built from the k-th
      kept job, kept jobs have both coordinates truthy and ascending indices,
      and every job with both coordinates truthy is kept. So the points are
      those jobs, in input order, each with `weight || 1`. */
  lemma {:induction false} PointsFromKept(jobs: seq<TransportJob>, n: nat)
    requires n <= |jobs|
    ensures var idx, points := Kept(jobs, n), HeatPoints(jobs[..n]);
      && |idx| == |points|
      && (forall k :: 0 <= k < |idx| ==>
            idx[k] < n && OnMap(jobs[idx[k]]) && points[k] == ToPoint(jobs[idx[k]]))
      && (forall k, l :: 0 <= k < l < |idx| ==> idx[k] < idx[l])
      && (forall i :: 0 <= i < n && OnMap(jobs[i]) ==> i in idx)
  {
    if n > 0 {
      var job := jobs[n - 1];
      PointsFromKept(jobs, n - 1);
      assert jobs[..n] == jobs[..n - 1] + [job];
      HeatPointsAppend(jobs[..n - 1], [job]);
      assert HeatPoints([job]) == (if OnMap(job) then [ToPoint(job)] else []) + HeatPoints([]);
    }
  }

  /** A job with a zero latitude or longitude gives no point, wherever it stands. */
  lemma ZeroCoordinateDropped(a: seq<TransportJob>, job: TransportJob, b: seq<TransportJob>)
    requires job.lat == Num(0.0) || job.lng == Num(0.0)
    ensures HeatPoints(a + [job] + b) == HeatPoints(a + b)
  {
    HeatPointsAppend(a + [job], b);
    HeatPointsAppend(a, [job]);
    HeatPointsAppend(a, b);
  }
}
