/** The backend's `GET /api/jobs` handler: every stored job document is
    renamed into a transport record, and a failed store read becomes a fixed
    500 response. The store read itself arrives as an input `Result`. */
module Server {
  import opened Values

  /** A document of the `jobs` collection, with the schema's field names. */
  datatype StoredJob = StoredJob(
    job_title: OptStr,
    company_name: OptStr,
    location: OptStr,
    lat: OptNum,
    lng: OptNum,
    salary_string: OptStr,
    job_weight: OptNum)

  /** Whatever the store read threw; it is only logged. */
  datatype StoreError = StoreError(detail: string)

  datatype Body = JobList(jobs: seq<TransportJob>) | ErrorBody(error: string)

  datatype Response = Response(status: int, body: Body)

  const LoadFailed: string := "Failed to load jobs"

  /** One element of `jobs.map(job => ({ ... }))`. */
  function ToTransport(job: StoredJob): (t: TransportJob)
    ensures t.weight.Truthy()
  {
    TransportJob(
      job.job_title, job.company_name, job.location, job.lat, job.lng, job.salary_string,
      Num(NumOr(job.job_weight, 1.0)))
  }

  /** Reads a transport record back as a stored document; the partner of `ToTransport`. */
  function FromTransport(t: TransportJob): StoredJob {
    StoredJob(t.title, t.company, t.location, t.lat, t.lng, t.salary, t.weight)
  }

  /** The projection loses exactly one thing: a falsy stored weight. Every
      other field comes back unchanged, whatever the weight. */
  lemma RoundTrip(job: StoredJob)
    ensures FromTransport(ToTransport(job)) == job <==> job.job_weight.Truthy()
    ensures FromTransport(ToTransport(job)).(job_weight := job.job_weight) == job
  {
    if FromTransport(ToTransport(job)) == job {
      assert job.job_weight == ToTransport(job).weight;
    }
  }

  /** `weight: job.job_weight || 1`: a stored weight survives exactly when it is
      truthy; absent and zero both become 1. */
  lemma WeightDefault(job: StoredJob)
    ensures ToTransport(job).weight == job.job_weight <==> job.job_weight.Truthy()
    ensures job.job_weight == NoNum || job.job_weight == Num(0.0) ==> ToTransport(job).weight == Num(1.0)
  {
  }

  /** The route handler: 200 with one transport record per stored document, in
      store order, or 500 with a fixed body and no partial list. */
  function ListJobs(read: Result<seq<StoredJob>, StoreError>): (r: Response)
    ensures r.status == 200 <==> read.Ok?
    ensures r.status == 200 || r.status == 500
    ensures read.Ok? ==>
      r.body.JobList? && |r.body.jobs| == |read.value| &&
      forall i :: 0 <= i < |read.value| ==> r.body.jobs[i] == ToTransport(read.value[i])
    ensures read.Err? ==> r == Response(500, ErrorBody(LoadFailed))
    ensures r.body.JobList? ==> forall t <- r.body.jobs :: t.weight.Truthy()
  {
    match read
    case Ok(jobs) =>
      Response(200, JobList(seq(|jobs|, i requires 0 <= i < |jobs| => ToTransport(jobs[i]))))
    case Err(_) =>
      Response(500, ErrorBody(LoadFailed))
  }

  /** One stored record `{job_title:"SWE", ..., job_weight:2}` comes back renamed. */
  lemma SingleRecordScenario()
    ensures
      var stored := StoredJob(Str("SWE"), Str("Acme"), Str("Pune"), Num(18.5), Num(73.8), Str("10 LPA"), Num(2.0));
      ListJobs(Ok([stored])) ==
        Response(200, JobList([TransportJob(Str("SWE"), Str("Acme"), Str("Pune"), Num(18.5), Num(73.8), Str("10 LPA"), Num(2.0))]))
  {
  }

  /** An empty collection is a successful empty list, not an error. */
  lemma EmptyStoreScenario()
    ensures ListJobs(Ok([])) == Response(200, JobList([]))
  {
  }
}
