/**
 * The server side of the feed: `get_job_directory` turns the parsed
 * `qstat -f -Fjson` document into one ordered record per job, and the
 * `__main__` block turns those records into the list it prints as JSON.
 *
 * The parsed document is given by what the builder reads from it: whether it
 * has a `Jobs` key, and for each job, in document order, its id and the value
 * at each key path the builder indexes (`None` when the path is absent, which
 * raises `KeyError` in the source).
 */
module Qstat {
  import opened Wrappers
  import opened Text
  import opened Records

  /** The values one job of the `Jobs` object holds at the paths the builder reads. */
  datatype QstatJob = QstatJob(
    jobName: Option<FeedValue>,  // Job_Name
    workdir: Option<FeedValue>,  // Variable_List.PBS_O_WORKDIR
    ncpus: Option<FeedValue>,    // resources_used.ncpus
    jobState: Option<FeedValue>, // job_state
    jobOwner: Option<FeedValue>, // Job_Owner
    mem: Option<FeedValue>)      // resources_used.mem

  /** Why building stops: a path that is absent (`KeyError`), a value that is not text where text is needed, or a size that `float` rejects. */
  datatype Failure = Missing(path: string) | NotText(path: string) | NotANumber(text: string)

  datatype MemUnit = Mb | Gb

  /** The `Memory` value: a converted size (the exact quotient; the source rounds it to one decimal when printing), or the size as `qstat` reported it. */
  datatype MemValue = Converted(amount: real, unit: MemUnit) | AsReported(text: string)

  /** One value of `jobDir`; `memory` is `None` when no `Memory` key was written. */
  datatype JobEntry = JobEntry(
    jobName: FeedValue, jobPath: FeedValue, cpus: FeedValue, status: FeedValue,
    owner: string, memory: Option<MemValue>)

  /** One element of the printed list, with its keys in the order they are set. */
  datatype EmittedJob = EmittedJob(
    jobId: string, jobName: FeedValue, jobPath: FeedValue, cpus: FeedValue,
    status: FeedValue, owner: string, memory: MemValue)

  /** `s.split('@')[0]`: the text before the first `@`, or all of it. */
  function OwnerOf(s: string): (r: string)
    ensures '@' !in r
    ensures StartsWith(s, r)
    ensures |r| == |s| || s[|r|] == '@'
  {
    if s == [] || s[0] == '@' then [] else [s[0]] + OwnerOf(s[1..])
  }

  /** `mem[-2:] == "kb"`. */
  predicate IsKb(s: string) {
    |s| >= 2 && s[|s| - 2..] == "kb"
  }

  /**
   * Lines 43-49 for a kilobyte count: `n / 1024` megabytes, shown in
   * gigabytes (divided once more) when that exceeds 1024.
   */
  function ConvertKb(n: nat): (v: MemValue)
    ensures v.Converted?
    ensures v.unit == Gb <==> n > 1048576
    ensures v.unit == Mb ==> v.amount == n as real / 1024.0
    ensures v.unit == Gb ==> v.amount == n as real / 1048576.0
    ensures v.unit == Mb ==> v.amount <= 1024.0
    ensures v.unit == Gb ==> v.amount > 1.0
  {
    var m := n as real / 1024.0;
    if m > 1024.0 then Converted(m / 1024.0, Gb) else Converted(m, Mb)
  }

  /** `float(mem[:-2])` for a string of digits, and `ValueError` otherwise. */
  function KbAmount(s: string): (r: Result<nat, Failure>)
    requires IsKb(s)
    ensures r.Ok? <==> IsDigits(s[..|s| - 2])
    ensures r.Ok? ==> r.value == ParseDigits(s[..|s| - 2])
  {
    var digits := s[..|s| - 2];
    if IsDigits(digits) then Ok(ParseDigits(digits)) else Err(NotANumber(digits))
  }

  /**
   * Lines 43-51 as written: a kilobyte size is converted, and any other size
   * leaves `Memory` unwritten (the raw value is read into a local and dropped).
   */
  function MemoryAsWritten(mem: FeedValue): (r: Result<Option<MemValue>, Failure>)
    ensures !mem.FStr? ==> r == Err(NotText("resources_used.mem"))
    ensures mem.FStr? && !IsKb(mem.s) ==> r == Ok(None)
    ensures mem.FStr? && IsKb(mem.s) ==> (r.Ok? <==> IsDigits(mem.s[..|mem.s| - 2]))
    ensures r.Ok? && mem.FStr? && IsKb(mem.s) ==>
      r.value == Some(ConvertKb(ParseDigits(mem.s[..|mem.s| - 2])))
  {
    if !mem.FStr? then Err(NotText("resources_used.mem"))
    else if !IsKb(mem.s) then Ok(None)
    else match KbAmount(mem.s)
      case Err(e) => Err(e)
      case Ok(n) => Ok(Some(ConvertKb(n)))
  }

  /**
   * Lines 43-51 as evidently intended: a kilobyte size is converted, and any
   * other size is written through as reported, so that every job has a
   * `Memory` value.
   */
  function Memory(mem: FeedValue): (r: Result<MemValue, Failure>)
    ensures !mem.FStr? ==> r == Err(NotText("resources_used.mem"))
    ensures mem.FStr? && !IsKb(mem.s) ==> r == Ok(AsReported(mem.s))
    ensures mem.FStr? && IsKb(mem.s) ==> (r.Ok? <==> IsDigits(mem.s[..|mem.s| - 2]))
    ensures r.Ok? && mem.FStr? && IsKb(mem.s) ==>
      r.value == ConvertKb(ParseDigits(mem.s[..|mem.s| - 2]))
  {
    if !mem.FStr? then Err(NotText("resources_used.mem"))
    else if !IsKb(mem.s) then Ok(AsReported(mem.s))
    else match KbAmount(mem.s)
      case Err(e) => Err(e)
      case Ok(n) => Ok(ConvertKb(n))
  }

  /** Lines 38-42: the copied fields and the owner, in the order the source reads them; `Memory` not yet set. */
  function CopiedFields(job: QstatJob): (r: Result<JobEntry, Failure>)
    ensures r.Ok? <==>
      job.jobName.Some? && job.workdir.Some? && job.ncpus.Some? && job.jobState.Some?
      && job.jobOwner.Some? && job.jobOwner.value.FStr?
    ensures r.Ok? ==>
      && r.value.jobName == job.jobName.value && r.value.jobPath == job.workdir.value
      && r.value.cpus == job.ncpus.value && r.value.status == job.jobState.value
      && r.value.owner == OwnerOf(job.jobOwner.value.s) && r.value.memory.None?
  {
    if job.jobName.None? then Err(Missing("Job_Name"))
    else if job.workdir.None? then Err(Missing("Variable_List.PBS_O_WORKDIR"))
    else if job.ncpus.None? then Err(Missing("resources_used.ncpus"))
    else if job.jobState.None? then Err(Missing("job_state"))
    else if job.jobOwner.None? then Err(Missing("Job_Owner"))
    else if !job.jobOwner.value.FStr? then Err(NotText("Job_Owner"))
    else Ok(JobEntry(job.jobName.value, job.workdir.value, job.ncpus.value,
                     job.jobState.value, OwnerOf(job.jobOwner.value.s), None))
  }

  /** The size `qstat` reported is text that does not end in "kb". */
  predicate NonKbSize(job: QstatJob) {
    job.mem.Some? && job.mem.value.FStr? && !IsKb(job.mem.value.s)
  }

  /** One iteration of the loop as written: the entry lacks `Memory` exactly when the size is not in kb. */
  function BuildEntryAsWritten(job: QstatJob): (r: Result<JobEntry, Failure>)
    ensures r.Ok? <==> CopiedFields(job).Ok? && job.mem.Some? && MemoryAsWritten(job.mem.value).Ok?
    ensures r.Ok? ==> r.value.memory == MemoryAsWritten(job.mem.value).value
    ensures r.Ok? ==> CopiedFields(job).Ok? && r.value == CopiedFields(job).value.(memory := r.value.memory)
    ensures r.Ok? ==> (r.value.memory.None? <==> NonKbSize(job))
  {
    match CopiedFields(job)
    case Err(e) => Err(e)
    case Ok(entry) =>
      if job.mem.None? then Err(Missing("resources_used.mem"))
      else match MemoryAsWritten(job.mem.value)
        case Err(e) => Err(e)
        case Ok(m) => Ok(entry.(memory := m))
  }

  /** One iteration of the loop, with the intended `Memory`. */
  function BuildEntry(job: QstatJob): (r: Result<JobEntry, Failure>)
    ensures r.Ok? <==> CopiedFields(job).Ok? && job.mem.Some? && Memory(job.mem.value).Ok?
    ensures r.Ok? ==> r.value.memory == Some(Memory(job.mem.value).value)
    ensures r.Ok? ==> r.value.memory.Some?
    ensures r.Ok? ==> CopiedFields(job).Ok? && r.value == CopiedFields(job).value.(memory := r.value.memory)
  {
    match CopiedFields(job)
    case Err(e) => Err(e)
    case Ok(entry) =>
      if job.mem.None? then Err(Missing("resources_used.mem"))
      else match Memory(job.mem.value)
        case Err(e) => Err(e)
        case Ok(m) => Ok(entry.(memory := Some(m)))
  }

  /**
   * The two builders fail alike, and build the same entry except that, for a
   * size not in kb, the one as written drops what the intended one writes through.
   */
  lemma BuildersAgree(job: QstatJob)
    ensures BuildEntryAsWritten(job).Ok? <==> BuildEntry(job).Ok?
    ensures BuildEntry(job).Err? ==> BuildEntryAsWritten(job) == BuildEntry(job)
    ensures BuildEntry(job).Ok? && !NonKbSize(job) ==> BuildEntryAsWritten(job) == BuildEntry(job)
    ensures BuildEntry(job).Ok? && NonKbSize(job) ==>
      && BuildEntry(job).value.memory == Some(AsReported(job.mem.value.s))
      && BuildEntryAsWritten(job).value == BuildEntry(job).value.(memory := None)
  {
  }

  /** Which `Memory` rule the builder follows: lines 43-51 as written, or as evidently intended. */
  datatype MemoryRule = AsWritten | Intended

  /** One iteration of the loop under the given rule. */
  function Build(rule: MemoryRule, job: QstatJob): (r: Result<JobEntry, Failure>)
    ensures r.Ok? <==> (CopiedFields(job).Ok? && job.mem.Some?
      && (rule == AsWritten ==> MemoryAsWritten(job.mem.value).Ok?)
      && (rule == Intended ==> Memory(job.mem.value).Ok?))
    ensures r.Ok? && rule == AsWritten ==> r.value.memory == MemoryAsWritten(job.mem.value).value
    ensures r.Ok? && rule == Intended ==> r.value.memory == Some(Memory(job.mem.value).value)
    ensures r.Ok? ==> CopiedFields(job).Ok? && r.value == CopiedFields(job).value.(memory := r.value.memory)
    ensures r.Ok? ==> (r.value.memory.None? <==> rule == AsWritten && NonKbSize(job))
  {
    match rule
    case AsWritten => BuildEntryAsWritten(job)
    case Intended => BuildEntry(job)
  }

  // ---------------------------------------------------------------------
  // The ordered dictionary
  // ---------------------------------------------------------------------

  function Keys<V>(d: seq<(string, V)>): (ks: seq<string>)
    ensures |ks| == |d|
    ensures forall i :: 0 <= i < |d| ==> ks[i] == d[i].0
  {
    if d == [] then [] else [d[0].0] + Keys(d[1..])
  }

  /** Where key `k` sits in `d`: its first occurrence. */
  function KeyIndex<V>(d: seq<(string, V)>, k: string): (i: nat)
    requires k in Keys(d)
    ensures i < |d| && d[i].0 == k
    ensures forall j :: 0 <= j < i ==> d[j].0 != k
  {
    if d[0].0 == k then 0
    else
      assert Keys(d) == [d[0].0] + Keys(d[1..]);
      1 + KeyIndex(d[1..], k)
  }

  /**
   * `d[k] = v` on an ordered dict: a new key goes last; an existing key keeps
   * its place and takes the new value, and every other pair is unchanged.
   */
  function Assign<V>(d: seq<(string, V)>, k: string, v: V): (r: seq<(string, V)>)
    ensures k !in Keys(d) ==> r == d + [(k, v)]
    ensures k in Keys(d) ==> |r| == |d| && r[KeyIndex(d, k)] == (k, v)
    ensures k in Keys(d) ==> forall i :: 0 <= i < |d| && i != KeyIndex(d, k) ==> r[i] == d[i]
    ensures k in Keys(d) ==> Keys(r) == Keys(d)
  {
    if k in Keys(d) then d[KeyIndex(d, k) := (k, v)] else d + [(k, v)]
  }

  /** Assigning keeps only the pairs that were there and the new one, which it always holds. */
  lemma AssignMembers<V>(d: seq<(string, V)>, k: string, v: V)
    ensures forall x :: x in Assign(d, k, v) ==> x in d || x == (k, v)
    ensures (k, v) in Assign(d, k, v)
  {
    var r := Assign(d, k, v);
    var at := if k in Keys(d) then KeyIndex(d, k) else |d|;
    assert r[at] == (k, v);
    forall x | x in r ensures x in d || x == (k, v) {
      var m :| 0 <= m < |r| && r[m] == x;
      if m != at {
        assert x == d[m];
      }
    }
  }

  /** Job ids appear at most once, as the keys of a dict do. */
  predicate DistinctIds(jobs: seq<(string, QstatJob)>) {
    forall i, j :: 0 <= i < j < |jobs| ==> jobs[i].0 != jobs[j].0
  }

  // ---------------------------------------------------------------------
  // get_job_directory
  // ---------------------------------------------------------------------

  /** The body of the loop of lines 36-51 under the given rule, as a function value. */
  function Builder(rule: MemoryRule): QstatJob -> Result<JobEntry, Failure> {
    job => Build(rule, job)
  }

  /** The loop of lines 36-51 run over a list of jobs with `build` as its body, stopping at the first failure. */
  function Directory(build: QstatJob -> Result<JobEntry, Failure>, jobs: seq<(string, QstatJob)>): Result<seq<(string, JobEntry)>, Failure> {
    if jobs == [] then Ok([])
    else match Directory(build, jobs[..|jobs| - 1])
      case Err(e) => Err(e)
      case Ok(d) =>
        match build(jobs[|jobs| - 1].1)
        case Err(e) => Err(e)
        case Ok(entry) => Ok(Assign(d, jobs[|jobs| - 1].0, entry))
  }

  /** `get_job_directory`: an empty directory when the document has no `Jobs` key. */
  function JobDirectory(rule: MemoryRule, jobsKey: Option<seq<(string, QstatJob)>>): (r: Result<seq<(string, JobEntry)>, Failure>)
    ensures jobsKey.None? ==> r == Ok([])
  {
    match jobsKey
    case None => Ok([])
    case Some(jobs) => Directory(Builder(rule), jobs)
  }

  /** Once a job fails, the whole call fails with that job's error. */
  lemma {:induction false} DirectoryFailureSticks(build: QstatJob -> Result<JobEntry, Failure>, jobs: seq<(string, QstatJob)>, i: nat)
    requires i <= |jobs| && Directory(build, jobs[..i]).Err?
    ensures Directory(build, jobs) == Directory(build, jobs[..i])
    decreases |jobs| - i
  {
    if i < |jobs| {
      var next := jobs[..i + 1];
      assert next[..|next| - 1] == jobs[..i];
      DirectoryFailureSticks(build, jobs, i + 1);
    } else {
      assert jobs[..i] == jobs;
    }
  }

  /** A directory that was built had its shorter directory and its last job build. */
  lemma DirectoryLast(build: QstatJob -> Result<JobEntry, Failure>, front: seq<(string, QstatJob)>, last: (string, QstatJob))
    requires Directory(build, front + [last]).Ok?
    ensures Directory(build, front).Ok? && build(last.1).Ok?
  {
    assert (front + [last])[..|front|] == front;
  }

  /** A directory that was built had every job build. */
  lemma {:induction false} DirectoryBuildsEveryJob(build: QstatJob -> Result<JobEntry, Failure>, jobs: seq<(string, QstatJob)>)
    requires Directory(build, jobs).Ok?
    ensures forall i :: 0 <= i < |jobs| ==> build(jobs[i].1).Ok?
  {
    if jobs != [] {
      var front, last := jobs[..|jobs| - 1], jobs[|jobs| - 1];
      assert jobs == front + [last];
      DirectoryLast(build, front, last);
      DirectoryBuildsEveryJob(build, front);
      EveryJobBuildsAppended(build, front, last);
    }
  }

  /** Every job builds when each one before the last does and the last does. */
  lemma EveryJobBuildsAppended(build: QstatJob -> Result<JobEntry, Failure>, front: seq<(string, QstatJob)>, last: (string, QstatJob))
    requires forall i :: 0 <= i < |front| ==> build(front[i].1).Ok?
    requires build(last.1).Ok?
    ensures forall i :: 0 <= i < |front| + 1 ==> build((front + [last])[i].1).Ok?
  {
  }

  /** One more job of the document: the directory grows by its entry, or fails with its error. */
  lemma DirectoryNext(build: QstatJob -> Result<JobEntry, Failure>, jobs: seq<(string, QstatJob)>, i: nat)
    requires i < |jobs| && Directory(build, jobs[..i]).Ok?
    ensures build(jobs[i].1).Err? ==> Directory(build, jobs[..i + 1]) == Err(build(jobs[i].1).error)
    ensures build(jobs[i].1).Ok? ==>
      Directory(build, jobs[..i + 1]) == Ok(Assign(Directory(build, jobs[..i]).value, jobs[i].0, build(jobs[i].1).value))
  {
    var next := jobs[..i + 1];
    assert next[..|next| - 1] == jobs[..i];
    assert next[|next| - 1] == jobs[i];
  }

  /**
   * With distinct ids and no failing job, the directory has one entry per
   * job, in document order, keyed by its id and built from that job.
   */
  lemma {:induction false} DirectoryOfDistinctJobs(build: QstatJob -> Result<JobEntry, Failure>, jobs: seq<(string, QstatJob)>)
    requires DistinctIds(jobs)
    requires forall i :: 0 <= i < |jobs| ==> build(jobs[i].1).Ok?
    ensures Directory(build, jobs).Ok?
    ensures |Directory(build, jobs).value| == |jobs|
    ensures forall i :: 0 <= i < |jobs| ==>
      Directory(build, jobs).value[i] == (jobs[i].0, build(jobs[i].1).value)
  {
    if jobs != [] {
      var front, last := jobs[..|jobs| - 1], jobs[|jobs| - 1];
      assert jobs == front + [last];
      FrontOfDistinctJobs(build, front, last);
      DirectoryOfDistinctJobs(build, front);
      var d := Directory(build, front).value;
      LastIdIsNew(front, last, d);
      DirectoryAppendNew(build, front, last, d);
      AppendedEntries(build, front, last, d);
    }
  }

  /** The jobs before the last keep distinct ids and all build, and so does the last. */
  lemma FrontOfDistinctJobs(build: QstatJob -> Result<JobEntry, Failure>, front: seq<(string, QstatJob)>, last: (string, QstatJob))
    requires DistinctIds(front + [last])
    requires forall i :: 0 <= i < |front| + 1 ==> build((front + [last])[i].1).Ok?
    ensures DistinctIds(front)
    ensures forall i :: 0 <= i < |front| ==> build(front[i].1).Ok?
    ensures build(last.1).Ok?
    ensures forall i :: 0 <= i < |front| ==> front[i].0 != last.0
  {
    assert forall i :: 0 <= i < |front| ==> (front + [last])[i] == front[i];
    assert (front + [last])[|front|] == last;
  }

  /** The last id is not among the keys of a directory keyed like the jobs before it. */
  lemma LastIdIsNew(front: seq<(string, QstatJob)>, last: (string, QstatJob), d: seq<(string, JobEntry)>)
    requires forall i :: 0 <= i < |front| ==> front[i].0 != last.0
    requires |d| == |front| && forall i :: 0 <= i < |d| ==> d[i].0 == front[i].0
    ensures last.0 !in Keys(d)
  {
  }

  /** A job with a new id is appended to the directory. */
  lemma DirectoryAppendNew(build: QstatJob -> Result<JobEntry, Failure>, front: seq<(string, QstatJob)>, last: (string, QstatJob), d: seq<(string, JobEntry)>)
    requires Directory(build, front) == Ok(d) && build(last.1).Ok? && last.0 !in Keys(d)
    ensures Directory(build, front + [last]) == Ok(d + [(last.0, build(last.1).value)])
  {
    assert (front + [last])[..|front|] == front;
  }

  /** Appending the last job's entry keeps each entry at its job's index. */
  lemma AppendedEntries(build: QstatJob -> Result<JobEntry, Failure>, front: seq<(string, QstatJob)>, last: (string, QstatJob), d: seq<(string, JobEntry)>)
    requires forall i :: 0 <= i < |front| ==> build(front[i].1).Ok?
    requires build(last.1).Ok?
    requires |d| == |front| && forall i :: 0 <= i < |d| ==> d[i] == (front[i].0, build(front[i].1).value)
    ensures forall i :: 0 <= i < |front| + 1 ==>
      (d + [(last.0, build(last.1).value)])[i] == ((front + [last])[i].0, build((front + [last])[i].1).value)
  {
  }

  /** The imperative loop of `get_job_directory`, filling `jobDir` entry by entry. */
  method GetJobDirectory(rule: MemoryRule, jobsKey: Option<seq<(string, QstatJob)>>) returns (r: Result<seq<(string, JobEntry)>, Failure>)
    ensures r == JobDirectory(rule, jobsKey)
  {
    if jobsKey.None? {
      return Ok([]);
    }
    var jobs := jobsKey.value;
    var jobDir: seq<(string, JobEntry)> := [];
    var i := 0;
    while i < |jobs|
      invariant 0 <= i <= |jobs|
      invariant Directory(Builder(rule), jobs[..i]) == Ok(jobDir)
    {
      var (jobId, job) := jobs[i];
      var built := Build(rule, job);
      DirectoryNext(Builder(rule), jobs, i);
      if built.Err? {
        DirectoryFailureSticks(Builder(rule), jobs, i + 1);
        return Err(built.error);
      }
      jobDir := Assign(jobDir, jobId, built.value);
      i := i + 1;
    }
    assert jobs[..i] == jobs;
    r := Ok(jobDir);
  }

  // ---------------------------------------------------------------------
  // The printed list
  // ---------------------------------------------------------------------

  /** Lines 63-73: each entry in order, keyed by its id; an entry without `Memory` raises `KeyError`. */
  function Emitted(dir: seq<(string, JobEntry)>): Result<seq<EmittedJob>, Failure> {
    if dir == [] then Ok([])
    else match Emitted(dir[..|dir| - 1])
      case Err(e) => Err(e)
      case Ok(list) =>
        var (jobId, e) := dir[|dir| - 1];
        if e.memory.None? then Err(Missing("Memory"))
        else Ok(list + [EmittedJob(jobId, e.jobName, e.jobPath, e.cpus, e.status, e.owner, e.memory.value)])
  }

  /**
   * The list is printed exactly when every entry has `Memory`, and then it
   * has one element per entry, in order, carrying its id and fields.
   */
  lemma {:induction false} EmittedCases(dir: seq<(string, JobEntry)>)
    ensures Emitted(dir).Ok? <==> forall i :: 0 <= i < |dir| ==> dir[i].1.memory.Some?
    ensures Emitted(dir).Err? ==> Emitted(dir) == Err(Missing("Memory"))
    ensures Emitted(dir).Ok? ==> |Emitted(dir).value| == |dir|
    ensures Emitted(dir).Ok? ==> forall i :: 0 <= i < |dir| ==>
      var x := Emitted(dir).value[i];
      x.jobId == dir[i].0 && x.jobName == dir[i].1.jobName && x.jobPath == dir[i].1.jobPath
      && x.cpus == dir[i].1.cpus && x.status == dir[i].1.status && x.owner == dir[i].1.owner
      && Some(x.memory) == dir[i].1.memory
  {
    if dir != [] {
      var front := dir[..|dir| - 1];
      EmittedCases(front);
      assert forall i :: 0 <= i < |front| ==> front[i] == dir[i];
    }
  }

  /** The loop of lines 63-73, appending to `job_list`. */
  method EmitJobList(dir: seq<(string, JobEntry)>) returns (r: Result<seq<EmittedJob>, Failure>)
    ensures r == Emitted(dir)
  {
    var jobList: seq<EmittedJob> := [];
    var i := 0;
    while i < |dir|
      invariant 0 <= i <= |dir|
      invariant Emitted(dir[..i]) == Ok(jobList)
    {
      var (jobId, info) := dir[i];
      assert dir[..i + 1][..i] == dir[..i];
      if info.memory.None? {
        EmittedFailureSticks(dir, i + 1);
        return Err(Missing("Memory"));
      }
      jobList := jobList + [EmittedJob(jobId, info.jobName, info.jobPath, info.cpus, info.status, info.owner, info.memory.value)];
      i := i + 1;
    }
    assert dir[..i] == dir;
    r := Ok(jobList);
  }

  lemma {:induction false} EmittedFailureSticks(dir: seq<(string, JobEntry)>, i: nat)
    requires i <= |dir| && Emitted(dir[..i]).Err?
    ensures Emitted(dir) == Emitted(dir[..i])
    decreases |dir| - i
  {
    if i < |dir| {
      var next := dir[..i + 1];
      assert next[..|next| - 1] == dir[..i];
      EmittedFailureSticks(dir, i + 1);
    } else {
      assert dir[..i] == dir;
    }
  }

  /** With the intended `Memory`, a directory that was built is always printed, one element per job. */
  lemma EveryBuiltDirectoryIsEmitted(jobsKey: Option<seq<(string, QstatJob)>>)
    requires JobDirectory(Intended, jobsKey).Ok?
    ensures Emitted(JobDirectory(Intended, jobsKey).value).Ok?
    ensures |Emitted(JobDirectory(Intended, jobsKey).value).value| == |JobDirectory(Intended, jobsKey).value|
  {
    var dir := JobDirectory(Intended, jobsKey).value;
    if jobsKey.Some? {
      DirectoryEntriesHaveMemory(jobsKey.value);
    }
    assert forall i :: 0 <= i < |dir| ==> dir[i] in dir;
    EmittedCases(dir);
  }

  lemma {:induction false} DirectoryEntriesHaveMemory(jobs: seq<(string, QstatJob)>)
    requires Directory(Builder(Intended), jobs).Ok?
    ensures forall x :: x in Directory(Builder(Intended), jobs).value ==> x.1.memory.Some?
  {
    if jobs != [] {
      var front := jobs[..|jobs| - 1];
      var last := jobs[|jobs| - 1];
      DirectoryEntriesHaveMemory(front);
      AssignMembers(Directory(Builder(Intended), front).value, last.0, Build(Intended, last.1).value);
    }
  }

  /**
   * As written, a directory that was built fails to print, with `KeyError`,
   * exactly when some job's size is text not in kb (such as "0b" for a job
   * that has just started). The ids are distinct because they are the keys of
   * the `Jobs` object.
   */
  lemma AsWrittenListFailsExactlyOnNonKb(jobsKey: Option<seq<(string, QstatJob)>>)
    requires jobsKey.Some? ==> DistinctIds(jobsKey.value)
    requires JobDirectory(AsWritten, jobsKey).Ok?
    ensures Emitted(JobDirectory(AsWritten, jobsKey).value).Err? <==>
      jobsKey.Some? && exists i :: 0 <= i < |jobsKey.value| && NonKbSize(jobsKey.value[i].1)
    ensures Emitted(JobDirectory(AsWritten, jobsKey).value).Err? ==>
      Emitted(JobDirectory(AsWritten, jobsKey).value) == Err(Missing("Memory"))
  {
    var dir := JobDirectory(AsWritten, jobsKey).value;
    EmittedCases(dir);
    if jobsKey.Some? {
      var jobs := jobsKey.value;
      DirectoryBuildsEveryJob(Builder(AsWritten), jobs);
      DirectoryOfDistinctJobs(Builder(AsWritten), jobs);
      forall i | 0 <= i < |jobs| ensures dir[i].1.memory.None? <==> NonKbSize(jobs[i].1) {
        assert dir[i].1 == Build(AsWritten, jobs[i].1).value;
      }
    }
  }

  /** A job reported at "0b" but otherwise complete: as written, the one-job list fails with `KeyError`. */
  lemma ByteSizedJobBreaksListAsWritten(id: string, job: QstatJob)
    requires CopiedFields(job).Ok? && job.mem == Some(FStr("0b"))
    ensures JobDirectory(AsWritten, Some([(id, job)])).Ok?
    ensures Emitted(JobDirectory(AsWritten, Some([(id, job)])).value) == Err(Missing("Memory"))
  {
    assert NonKbSize(job) by { assert !IsKb("0b"); }
    DirectoryOfDistinctJobs(Builder(AsWritten), [(id, job)]);
    AsWrittenListFailsExactlyOnNonKb(Some([(id, job)]));
  }

  /** With the intended `Memory`, the same job is listed with its size as reported. */
  lemma ByteSizedJobPassesThrough(id: string, job: QstatJob)
    requires CopiedFields(job).Ok? && job.mem == Some(FStr("0b"))
    ensures JobDirectory(Intended, Some([(id, job)])) == Ok([(id, BuildEntry(job).value)])
    ensures BuildEntry(job).value.memory == Some(AsReported("0b"))
    ensures Emitted(JobDirectory(Intended, Some([(id, job)])).value).Ok?
  {
    assert !IsKb("0b");
    DirectoryOfDistinctJobs(Builder(Intended), [(id, job)]);
    EveryBuiltDirectoryIsEmitted(Some([(id, job)]));
  }

  /** 2097152 kb is shown as 2.0 Gb and 512000 kb as 500.0 Mb; 1048576 kb, exactly 1024 Mb, stays in Mb. */
  lemma ConversionExamples()
    ensures ConvertKb(2097152) == Converted(2.0, Gb)
    ensures ConvertKb(512000) == Converted(500.0, Mb)
    ensures ConvertKb(1048576) == Converted(1024.0, Mb)
  {
  }
}
