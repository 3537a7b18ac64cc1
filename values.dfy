/** Values shared by the job-heatmap backend and frontend: the failure-carrying
    wrappers, JavaScript field values with their truthiness, and the transport
    record that crosses the `/api/jobs` boundary. */
module Values {

  datatype Option<+T> = None | Some(value: T)

  datatype Result<+T, +E> = Ok(value: T) | Err(error: E)

  /** A text field of a JavaScript object: absent (`undefined` or `null`) or a string. */
  datatype OptStr = NoStr | Str(s: string) {
    /** JavaScript truthiness: every string except the empty one. */
    predicate Truthy() { Str? && s != "" }
  }

  /** A numeric field of a JavaScript object: absent (`undefined` or `null`) or a number. */
  datatype OptNum = NoNum | Num(v: real) {
    /** JavaScript truthiness: every number except zero. */
    predicate Truthy() { Num? && v != 0.0 }
  }

  /** `x || d` for a text field. */
  function StrOr(x: OptStr, d: string): string {
    if x.Truthy() then x.s else d
  }

  /** `x || d` for a numeric field. */
  function NumOr(x: OptNum, d: real): real {
    if x.Truthy() then x.v else d
  }

  /** A job as the `/api/jobs` endpoint sends it and the page receives it. */
  datatype TransportJob = TransportJob(
    title: OptStr,
    company: OptStr,
    location: OptStr,
    lat: OptNum,
    lng: OptNum,
    salary: OptStr,
    weight: OptNum)
}
