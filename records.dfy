/**
 * The client's job records and `parse_output`'s normalisation of one decoded
 * feed element into a record with a value for every column.
 */
module Records {
  import opened Wrappers
  import opened Text

  /** A JSON scalar as `json.loads` returns it (floats are not modelled). */
  datatype FeedValue = FStr(s: string) | FInt(i: int) | FBool(b: bool) | FNull

  /** One element of the feed's JSON array: a JSON object. */
  type FeedObject = map<string, FeedValue>

  /** Python's `str(v)`. */
  function Stringify(v: FeedValue): (r: string)
    ensures v.FStr? ==> r == v.s
    ensures v.FInt? && v.i >= 0 ==> IsDigits(r) && ParseDigits(r) == v.i
    ensures v.FInt? && v.i < 0 ==> !IsDigits(r)
  {
    match v
    case FStr(s) => s
    case FInt(i) =>
      if i >= 0 then ParseNatToString(i); IntToString(i) else IntToString(i)
    case FBool(b) => if b then "True" else "False"
    case FNull => "None"
  }

  /** The ordered dict `parse_output` builds for one job. */
  datatype JobRecord = JobRecord(
    server: string, jobId: string, jobName: string, jobPath: string,
    cpus: string, status: string, owner: string, memory: string)

  /** The columns of a job record, in display order. */
  datatype Field = Server | JobID | JobName | JobPath | CPUs | Status | Owner | Memory

  /** The dict key of a column, which is also its header text. */
  function FieldName(f: Field): string {
    match f
    case Server => "Server"
    case JobID => "JobID"
    case JobName => "Job_Name"
    case JobPath => "Job_Path"
    case CPUs => "CPUs"
    case Status => "Status"
    case Owner => "Owner"
    case Memory => "Memory"
  }

  /** `job[field]`. */
  function Get(job: JobRecord, f: Field): string {
    match f
    case Server => job.server
    case JobID => job.jobId
    case JobName => job.jobName
    case JobPath => job.jobPath
    case CPUs => job.cpus
    case Status => job.status
    case Owner => job.owner
    case Memory => job.memory
  }

  /** `job_data.get(key, 'N/A')`, as a string. */
  function FieldOr(obj: FeedObject, key: string): string {
    if key in obj then Stringify(obj[key]) else "N/A"
  }

  /**
   * One iteration of `parse_output`'s loop: the record is tagged with the
   * server it came from (whatever the feed says), every absent key reads
   * "N/A", and CPUs is stringified so that a count reads back as that count.
   */
  function NormalizeJob(obj: FeedObject, serverName: string): (r: JobRecord)
    ensures r.server == serverName
    ensures forall f :: f != Server && FieldName(f) !in obj ==> Get(r, f) == "N/A"
    ensures forall f :: f != Server && FieldName(f) in obj && obj[FieldName(f)].FStr? ==>
      Get(r, f) == obj[FieldName(f)].s
    ensures "CPUs" in obj && obj["CPUs"].FInt? && obj["CPUs"].i >= 0 ==>
      IsDigits(r.cpus) && ParseDigits(r.cpus) == obj["CPUs"].i
  {
    var r := JobRecord(
      serverName,
      FieldOr(obj, "JobID"),
      FieldOr(obj, "Job_Name"),
      FieldOr(obj, "Job_Path"),
      FieldOr(obj, "CPUs"),
      FieldOr(obj, "Status"),
      FieldOr(obj, "Owner"),
      FieldOr(obj, "Memory"));
    assert forall f :: f != Server ==> Get(r, f) == FieldOr(obj, FieldName(f)) by {
      forall f | f != Server ensures Get(r, f) == FieldOr(obj, FieldName(f)) {
        if f.JobID? {
        } else if f.JobName? {
        } else if f.JobPath? {
        } else if f.CPUs? {
        } else if f.Status? {
        } else if f.Owner? {
        }
      }
    }
    r
  }

  /** The records `parse_output` appends, one per feed element, in feed order. */
  function NormalizeAll(objs: seq<FeedObject>, serverName: string): (r: seq<JobRecord>)
    ensures |r| == |objs|
    ensures forall i :: 0 <= i < |r| ==> r[i] == NormalizeJob(objs[i], serverName)
  {
    if objs == [] then []
    else NormalizeAll(objs[..|objs| - 1], serverName) + [NormalizeJob(objs[|objs| - 1], serverName)]
  }

  /**
   * What `parse_output` returns for the decoded feed: nothing when the feed
   * did not decode (`JSONDecodeError`), otherwise the normalised records.
   */
  function ParsedJobs(decoded: Option<seq<FeedObject>>, serverName: string): (r: seq<JobRecord>)
    ensures decoded.None? ==> r == []
    ensures decoded.Some? ==> |r| == |decoded.value|
    ensures decoded.Some? ==> forall i :: 0 <= i < |r| ==> r[i] == NormalizeJob(decoded.value[i], serverName)
    ensures forall j :: j in r ==> j.server == serverName
  {
    match decoded
    case None => []
    case Some(objs) => NormalizeAll(objs, serverName)
  }
}
