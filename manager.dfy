/**
 * `PBSJobManager`: the job table held by the client and the operations on
 * it. Every remote command goes through `Remote.Exec` on a `Channel`; the
 * answers of the repeated size probe of `view_log` are given as a sequence,
 * one per poll, since the same command is asked again and again.
 */
module Manager {
  import opened Wrappers
  import opened Text
  import opened Remote
  import opened PathMapping
  import opened Records
  import opened JobTable
  import opened Display
  import opened LogTail

  /** The already-validated configuration. */
  datatype Config = Config(
    qdelPath: string, qsubPath: string, submitScriptName: string,
    linuxBasePath: string, remoteScriptName: string,
    driveMapping: DriveMapping, servers: seq<ServerEntry>)

  /** Which attribute of a server a search compares. */
  datatype ServerKey = ByName | ByHostname

  function ServerAttr(s: Server, key: ServerKey): string {
    match key
    case ByName => s.name
    case ByHostname => s.hostname
  }

  /** The search loops over `self.servers`: the first server whose attribute equals `value`. */
  function FindServer(servers: seq<Server>, key: ServerKey, value: string): (r: Option<nat>)
    ensures r.Some? ==> r.value < |servers| && ServerAttr(servers[r.value], key) == value
    ensures r.Some? ==> forall k :: 0 <= k < r.value ==> ServerAttr(servers[k], key) != value
    ensures r.None? ==> forall k :: 0 <= k < |servers| ==> ServerAttr(servers[k], key) != value
  {
    if servers == [] then None
    else if ServerAttr(servers[0], key) == value then Some(0)
    else Shift(FindServer(servers[1..], key, value))
  }

  function Shift(o: Option<nat>): (r: Option<nat>)
    ensures r.Some? <==> o.Some?
    ensures r.Some? ==> r.value == o.value + 1
  {
    match o
    case None => None
    case Some(n) => Some(n + 1)
  }

  function FetchCommand(scriptPath: string): string {
    "python3 " + scriptPath + " --json"
  }

  /** What one server adds to the table: its parsed feed when its answer is non-empty, nothing otherwise. */
  function FetchedFrom(s: Server, scriptPath: string, channel: Channel, decode: string -> Option<seq<FeedObject>>): seq<JobRecord> {
    var output := Exec(channel, s, FetchCommand(scriptPath));
    if Truthy(output) then ParsedJobs(decode(output.value), s.name) else []
  }

  /** The table `fetch_all_jobs` builds: each server's contribution, in server order. */
  function Fetched(servers: seq<Server>, scriptPath: string, channel: Channel, decode: string -> Option<seq<FeedObject>>): seq<JobRecord> {
    if servers == [] then []
    else Fetched(servers[..|servers| - 1], scriptPath, channel, decode)
         + FetchedFrom(servers[|servers| - 1], scriptPath, channel, decode)
  }

  lemma FetchedSnoc(servers: seq<Server>, s: Server, scriptPath: string, channel: Channel, decode: string -> Option<seq<FeedObject>>)
    ensures Fetched(servers + [s], scriptPath, channel, decode) ==
      Fetched(servers, scriptPath, channel, decode) + FetchedFrom(s, scriptPath, channel, decode)
  {
    var all := servers + [s];
    assert all[..|all| - 1] == servers;
  }

  /** When no server answers (or every answer is empty), the table is empty. */
  lemma {:induction false} FetchedAllFailed(servers: seq<Server>, scriptPath: string, channel: Channel, decode: string -> Option<seq<FeedObject>>)
    requires forall s :: s in servers ==> !Truthy(Exec(channel, s, FetchCommand(scriptPath)))
    ensures Fetched(servers, scriptPath, channel, decode) == []
  {
    if servers != [] {
      var front := servers[..|servers| - 1];
      assert forall s :: s in front ==> s in servers;
      FetchedAllFailed(front, scriptPath, channel, decode);
    }
  }

  /** Every fetched record is tagged with the name of a server that answered. */
  lemma {:induction false} FetchedComesFromAnsweringServers(servers: seq<Server>, scriptPath: string, channel: Channel, decode: string -> Option<seq<FeedObject>>)
    ensures forall j :: j in Fetched(servers, scriptPath, channel, decode) ==>
      exists s :: s in servers && Truthy(Exec(channel, s, FetchCommand(scriptPath))) && j.server == s.name
  {
    if servers != [] {
      var front := servers[..|servers| - 1];
      var last := servers[|servers| - 1];
      FetchedComesFromAnsweringServers(front, scriptPath, channel, decode);
      forall j | j in Fetched(servers, scriptPath, channel, decode)
        ensures exists s :: s in servers && Truthy(Exec(channel, s, FetchCommand(scriptPath))) && j.server == s.name
      {
        if j in Fetched(front, scriptPath, channel, decode) {
          var s :| s in front && Truthy(Exec(channel, s, FetchCommand(scriptPath))) && j.server == s.name;
          assert s in servers;
        } else {
          assert j in FetchedFrom(last, scriptPath, channel, decode);
          assert last in servers;
        }
      }
    }
  }

  /** The printed rows of a job list, in list order. */
  function Rows(jobs: seq<JobRecord>): (rows: seq<string>)
    ensures |rows| == |jobs|
    ensures forall i :: 0 <= i < |jobs| ==> rows[i] == Row(jobs[i])
  {
    seq(|jobs|, i requires 0 <= i < |jobs| => Row(jobs[i]))
  }

  /** What `display_jobs` shows. */
  datatype Screen = NoJobs | Table(header: string, separator: string, rows: seq<string>)

  /** Who `kill_job` would address: the server resolved for the job and the job's directory. */
  function KillTarget(jobs: seq<JobRecord>, servers: seq<Server>, jobId: string, serverArg: Option<string>): Option<(Server, string)> {
    var (name, jobPath) :=
      if Truthy(serverArg) then (serverArg, "")
      else match FirstMatch(jobs, jobId)
        case None => (serverArg, "")
        case Some(i) => (Some(jobs[i].server), jobs[i].jobPath);
    if !Truthy(name) then None
    else match FindServer(servers, ByName, name.value)
      case None => None
      case Some(k) => Some((servers[k], jobPath))
  }

  function QdelCommand(qdelPath: string, jobId: string): string {
    qdelPath + " " + jobId
  }

  function RemoveCommand(jobPath: string): string {
    "rm -rf " + jobPath
  }

  /** `kill_job`'s result and the commands it sends, in order, to the resolved server. */
  function KillPlan(jobs: seq<JobRecord>, servers: seq<Server>, qdelPath: string, jobId: string,
                    serverArg: Option<string>, answer: string, channel: Channel): (bool, seq<string>) {
    match KillTarget(jobs, servers, jobId, serverArg)
    case None => (false, [])
    case Some((server, jobPath)) =>
      var qdel := QdelCommand(qdelPath, jobId);
      if Exec(channel, server, qdel).None? then (false, [qdel])
      else if Strip(answer) == "y" then (true, [qdel, RemoveCommand(jobPath)])
      else (true, [qdel])
  }

  /**
   * Without a server nothing is sent and the kill fails; with one, `qdel` is
   * sent first, the kill succeeds exactly when `qdel` got an answer, whatever
   * the operator types, and the directory is removed only after a successful
   * `qdel` and the answer "y".
   */
  lemma KillPlanRules(jobs: seq<JobRecord>, servers: seq<Server>, qdelPath: string, jobId: string,
                      serverArg: Option<string>, answer: string, channel: Channel)
    ensures var (ok, issued) := KillPlan(jobs, servers, qdelPath, jobId, serverArg, answer, channel);
      var target := KillTarget(jobs, servers, jobId, serverArg);
      && (target.None? ==> !ok && issued == [])
      && (target.Some? ==> |issued| >= 1 && issued[0] == QdelCommand(qdelPath, jobId))
      && (ok <==> target.Some? && Exec(channel, target.value.0, QdelCommand(qdelPath, jobId)).Some?)
      && (|issued| == 2 <==> ok && Strip(answer) == "y")
      && (|issued| == 2 ==> issued[1] == RemoveCommand(target.value.1))
      && |issued| <= 2
  {
  }

  /** Given a server, `kill_job` does not look the job up: the server is the one so named and the job path stays empty. */
  lemma GivenServerSkipsLookup(jobs: seq<JobRecord>, servers: seq<Server>, jobId: string, serverArg: Option<string>)
    requires Truthy(serverArg)
    ensures var target := KillTarget(jobs, servers, jobId, serverArg);
      && (target.Some? <==> FindServer(servers, ByName, serverArg.value).Some?)
      && (target.Some? ==> target.value.0.name == serverArg.value && target.value.1 == "")
  {
  }

  /** So a confirmed removal after a kill given a server is `rm -rf ` with an empty path. */
  lemma GivenServerRemovesEmptyPath(jobs: seq<JobRecord>, servers: seq<Server>, qdelPath: string, jobId: string,
                                    name: string, answer: string, channel: Channel)
    requires name != ""
    requires Strip(answer) == "y"
    requires KillPlan(jobs, servers, qdelPath, jobId, Some(name), answer, channel).0
    ensures KillPlan(jobs, servers, qdelPath, jobId, Some(name), answer, channel).1 ==
      [QdelCommand(qdelPath, jobId), "rm -rf "]
  {
    GivenServerSkipsLookup(jobs, servers, jobId, Some(name));
    KillPlanRules(jobs, servers, qdelPath, jobId, Some(name), answer, channel);
    var plan := KillPlan(jobs, servers, qdelPath, jobId, Some(name), answer, channel);
    assert |plan.1| == 2;
    assert plan.1 == [plan.1[0], plan.1[1]];
    assert RemoveCommand("") == "rm -rf ";
  }

  /** Without a server argument, the job searched is the first in table order whose id contains the token. */
  lemma KillResolvesFirstMatch(jobs: seq<JobRecord>, servers: seq<Server>, jobId: string, serverArg: Option<string>)
    requires !Truthy(serverArg)
    requires KillTarget(jobs, servers, jobId, serverArg).Some?
    ensures FirstMatch(jobs, jobId).Some?
    ensures var i := FirstMatch(jobs, jobId).value;
      KillTarget(jobs, servers, jobId, serverArg).value.0.name == jobs[i].server
      && KillTarget(jobs, servers, jobId, serverArg).value.1 == jobs[i].jobPath
  {
  }

  function SubmitCommand(qsubPath: string, jobPath: string, script: string): string {
    "cd " + jobPath + " && " + qsubPath + " " + script
  }

  /** Where the log of a job lives. */
  function LogFile(jobPath: string): string {
    jobPath + "/Simulation/messag"
  }

  function CheckCommand(logFile: string): string {
    "test -f " + logFile + " && echo 'EXISTS' || echo 'NOT_FOUND'"
  }

  /** How `view_log` ends. */
  datatype ViewOutcome =
    | NotListed                // no job in the table matches
    | UnknownServer(name: string) // the job's server is not configured
    | NoLogFile(logFile: string)  // the existence check failed or said NOT_FOUND
    | Watched(logFile: string, server: Server, finalSize: nat, actions: seq<Action>)

  function Answers(polls: seq<Transport>): (r: seq<Option<string>>)
    ensures |r| == |polls|
    ensures forall i :: 0 <= i < |polls| ==> r[i] == ConnectAndExecute(polls[i])
  {
    seq(|polls|, i requires 0 <= i < |polls| => ConnectAndExecute(polls[i]))
  }

  /**
   * `view_log` with the operator stopping it after the given polls: the first
   * matching job's log on its server, checked for existence, shown from its
   * last 50 lines, then followed poll by poll from the probed size.
   */
  function ViewPlan(jobs: seq<JobRecord>, servers: seq<Server>, token: string, channel: Channel,
                    probe: Transport, polls: seq<Transport>): ViewOutcome {
    match FirstMatch(jobs, token)
    case None => NotListed
    case Some(i) =>
      var logFile := LogFile(jobs[i].jobPath);
      match FindServer(servers, ByName, jobs[i].server)
      case None => UnknownServer(jobs[i].server)
      case Some(k) =>
        var result := Exec(channel, servers[k], CheckCommand(logFile));
        if !Truthy(result) || Contains(result.value, "NOT_FOUND") then NoLogFile(logFile)
        else
          var (size, acts) := Watch(Baseline(ConnectAndExecute(probe)), Readings(Answers(polls)));
          Watched(logFile, servers[k], size, acts)
  }

  /** Once the log is found: the last 50 lines, the baseline probe, then the polls. */
  function Watch(base: nat, readings: seq<Option<nat>>): (nat, seq<Action>) {
    var (size, acts) := Follow(base, readings);
    (size, [ReadLines(TailLines), ProbeSize] + acts)
  }

  /**
   * Once watching, the baseline ends at the last size any probe reported
   * (the first probe's, or 0 when no probe gave a size), and without a reset
   * the delta reads add up to exactly the growth of the log.
   */
  lemma WatchFollowsTheLog(base: nat, readings: seq<Option<nat>>)
    ensures var (finalSize, actions) := Watch(base, readings);
      && finalSize == LastSize(base, readings)
      && actions[..2] == [ReadLines(TailLines), ProbeSize]
      && WellFormed(actions[2..])
      && (ResetNotice !in actions[2..] ==> finalSize >= base && BytesRequested(actions[2..]) == finalSize - base)
  {
    FollowEndsAtLastSize(base, readings);
    FollowWellFormed(base, readings);
    var (finalSize, actions) := Watch(base, readings);
    assert actions[2..] == Follow(base, readings).1;
    if ResetNotice !in actions[2..] {
      DeltaReadsCoverGrowth(base, readings);
    }
  }

  /** The search loop of `kill_job`: the first job whose id contains the given one. */
  method LocateJob(jobs: seq<JobRecord>, jobId: string) returns (found: Option<nat>)
    ensures found == FirstMatch(jobs, jobId)
  {
    var i := 0;
    while i < |jobs|
      invariant 0 <= i <= |jobs|
      invariant forall k :: 0 <= k < i ==> !Contains(jobs[k].jobId, jobId)
    {
      if Contains(jobs[i].jobId, jobId) {
        return Some(i);
      }
      i := i + 1;
    }
    return None;
  }

  /** The search loop of `view_log`, whose test also accepts an id starting with the token and a dot. */
  method LocateLoggedJob(jobs: seq<JobRecord>, token: string) returns (found: Option<nat>)
    ensures found == FirstMatch(jobs, token)
  {
    var i := 0;
    while i < |jobs|
      invariant 0 <= i <= |jobs|
      invariant forall k :: 0 <= k < i ==> !Contains(jobs[k].jobId, token)
    {
      ViewLogMatchIsContains(jobs[i].jobId, token);
      if ViewLogMatch(jobs[i].jobId, token) {
        return Some(i);
      }
      i := i + 1;
    }
    return None;
  }

  /** The server search loops: the first server whose name (or hostname) is the given one. */
  method LocateServer(servers: seq<Server>, key: ServerKey, value: string) returns (found: Option<nat>)
    ensures found == FindServer(servers, key, value)
  {
    var k := 0;
    while k < |servers|
      invariant 0 <= k <= |servers|
      invariant forall m :: 0 <= m < k ==> ServerAttr(servers[m], key) != value
    {
      if ServerAttr(servers[k], key) == value {
        return Some(k);
      }
      k := k + 1;
    }
    return None;
  }

  /** `if r and r.strip().isdigit(): int(r.strip())`: a probe answer read as a size. */
  method ProbedSize(answer: Option<string>) returns (size: Option<nat>)
    ensures size == SizeOf(answer)
  {
    if Truthy(answer) && IsDigits(Strip(answer.value)) {
      return Some(ParseDigits(Strip(answer.value)));
    }
    return None;
  }

  /** The row loop of `display_jobs`: one rendered row per job, in order. */
  method RenderRows(sorted: seq<JobRecord>) returns (rows: seq<string>)
    ensures rows == Rows(sorted)
  {
    rows := [];
    var i := 0;
    while i < |sorted|
      invariant 0 <= i <= |sorted|
      invariant |rows| == i
      invariant forall k :: 0 <= k < i ==> rows[k] == Row(sorted[k])
    {
      var row := RenderRow(sorted[i]);
      rows := rows + [row];
      i := i + 1;
    }
    assert forall k :: 0 <= k < |sorted| ==> rows[k] == Rows(sorted)[k];
  }

  /**
   * The polling loop of `view_log`: each poll probes the size again, reads
   * the new bytes when the log grew and announces a reset (then shows the
   * last lines again) when it shrank.
   */
  method FollowPolls(base: nat, polls: seq<Transport>) returns (size: nat, acts: seq<Action>)
    ensures (size, acts) == Follow(base, Readings(Answers(polls)))
  {
    ghost var readings := Readings(Answers(polls));
    size, acts := base, [];
    var p := 0;
    while p < |polls|
      invariant 0 <= p <= |polls|
      invariant size == Follow(base, readings[..p]).0
      invariant acts == Follow(base, readings[..p]).1
    {
      var next, more := PollOnce(size, ConnectAndExecute(polls[p]));
      FollowPrefix(base, readings, p);
      size, acts := next, acts + more;
      p := p + 1;
    }
    assert readings[..p] == readings;
  }

  /** One poll: the size answer compared with the previous size. */
  method PollOnce(prev: nat, answer: Option<string>) returns (size: nat, acts: seq<Action>)
    ensures (size, acts) == Step(prev, SizeOf(answer))
  {
    var reading := ProbedSize(answer);
    size, acts := prev, [ProbeSize];
    if reading.Some? {
      var currentSize := reading.value;
      if currentSize > prev {
        acts := [ProbeSize, ReadBytes(currentSize - prev)];
        size := currentSize;
      } else if currentSize < prev {
        acts := [ProbeSize, ResetNotice, ReadLines(TailLines)];
        size := currentSize;
      }
    }
  }

  class JobManager {
    const config: Config
    const user: string
    const servers: seq<Server>
    const serverToDrive: map<string, string>
    const scriptPath: string
    var allJobs: seq<JobRecord>

    constructor(config: Config, user: string)
      ensures this.config == config && this.user == user
      ensures servers == SetupServers(config.servers, user)
      ensures serverToDrive == ServerToDrive(config.driveMapping)
      ensures scriptPath == config.linuxBasePath + "/" + user + "/" + config.remoteScriptName
      ensures allJobs == []
    {
      this.config := config;
      this.user := user;
      this.allJobs := [];
      this.serverToDrive := ServerToDrive(config.driveMapping);
      this.servers := SetupServers(config.servers, user);
      this.scriptPath := config.linuxBasePath + "/" + user + "/" + config.remoteScriptName;
    }

    /** `parse_output`: one normalised record per decoded element, none when decoding fails. */
    method ParseOutput(output: string, serverName: string, decode: string -> Option<seq<FeedObject>>) returns (jobs: seq<JobRecord>)
      ensures jobs == ParsedJobs(decode(output), serverName)
    {
      var decoded := decode(output);
      if decoded.None? {
        return [];
      }
      var objs := decoded.value;
      jobs := [];
      var i := 0;
      while i < |objs|
        invariant 0 <= i <= |objs|
        invariant jobs == NormalizeAll(objs[..i], serverName)
      {
        assert objs[..i + 1][..i] == objs[..i];
        jobs := jobs + [NormalizeJob(objs[i], serverName)];
        i := i + 1;
      }
      assert objs[..i] == objs;
    }

    /** `fetch_all_jobs`: the table is reset, then extended server by server. */
    method FetchAllJobs(channel: Channel, decode: string -> Option<seq<FeedObject>>) returns (jobs: seq<JobRecord>)
      modifies this
      ensures allJobs == Fetched(servers, scriptPath, channel, decode)
      ensures jobs == allJobs
    {
      allJobs := [];
      var i := 0;
      while i < |servers|
        invariant 0 <= i <= |servers|
        invariant allJobs == Fetched(servers[..i], scriptPath, channel, decode)
      {
        var server := servers[i];
        var command := FetchCommand(scriptPath);
        var output := Exec(channel, server, command);
        assert servers[..i + 1][..i] == servers[..i];
        if Truthy(output) {
          var parsed := ParseOutput(output.value, server.name, decode);
          allJobs := allJobs + parsed;
        }
        i := i + 1;
      }
      assert servers[..i] == servers;
      jobs := allJobs;
    }

    /**
     * `display_jobs`: the given jobs (the whole table when none are given),
     * stably sorted on the chosen column, one row per job; nothing when
     * there are no jobs. The table itself is not reordered.
     */
    method DisplayJobs(jobs: Option<seq<JobRecord>>, sortBy: Field) returns (screen: Screen)
      ensures var shown := if jobs.None? then allJobs else jobs.value;
        && (screen.NoJobs? <==> shown == [])
        && (screen.Table? ==>
              && screen.header == Concat(HeaderCells())
              && screen.separator == Concat(SeparatorCells())
              && |screen.rows| == |shown|
              && screen.rows == Rows(SortJobs(shown, sortBy)))
    {
      var shown := if jobs.None? then allJobs else jobs.value;
      if shown == [] {
        return NoJobs;
      }
      var sorted := SortJobs(shown, sortBy);
      SortJobsKeepsLength(shown, sortBy);
      var header, separator := RenderHeader();
      var rows := RenderRows(sorted);
      screen := Table(header, separator, rows);
    }

    /** `kill_job` with the operator's answer to the deletion prompt given as `answer`. */
    method KillJob(jobId: string, serverArg: Option<string>, answer: string, channel: Channel) returns (ok: bool, issued: seq<string>)
      ensures (ok, issued) == KillPlan(allJobs, servers, config.qdelPath, jobId, serverArg, answer, channel)
    {
      var jobPath := "";
      var serverName := serverArg;
      if !Truthy(serverName) {
        var found := LocateJob(allJobs, jobId);
        if found.Some? {
          serverName := Some(allJobs[found.value].server);
          jobPath := allJobs[found.value].jobPath;
        }
      }
      if !Truthy(serverName) {
        return false, [];
      }
      var located := LocateServer(servers, ByName, serverName.value);
      if located.None? {
        return false, [];
      }
      var k := located.value;
      var server := servers[k];
      var command := QdelCommand(config.qdelPath, jobId);
      var output := Exec(channel, server, command);
      if output.Some? {
        var delDir := Strip(answer);
        if delDir == "y" {
          return true, [command, RemoveCommand(jobPath)];
        }
        return true, [command];
      }
      return false, [command];
    }

    /** `view_log`, stopped by the operator after the given polls. */
    method ViewLog(token: string, channel: Channel, probe: Transport, polls: seq<Transport>) returns (outcome: ViewOutcome)
      ensures outcome == ViewPlan(allJobs, servers, token, channel, probe, polls)
    {
      var found := LocateLoggedJob(allJobs, token);
      if found.None? {
        return NotListed;
      }
      var matched := allJobs[found.value];
      var logFile := LogFile(matched.jobPath);
      var located := LocateServer(servers, ByName, matched.server);
      if located.None? {
        return UnknownServer(matched.server);
      }
      var k := located.value;
      var server := servers[k];
      var result := Exec(channel, server, CheckCommand(logFile));
      if !Truthy(result) || Contains(result.value, "NOT_FOUND") {
        return NoLogFile(logFile);
      }
      var reading := ProbedSize(ConnectAndExecute(probe));
      var prevSize := 0;
      if reading.Some? {
        prevSize := reading.value;
      }
      var finalSize, acts := FollowPolls(prevSize, polls);
      outcome := Watched(logFile, server, finalSize, [ReadLines(TailLines), ProbeSize] + acts);
      assert (finalSize, [ReadLines(TailLines), ProbeSize] + acts) == Watch(prevSize, Readings(Answers(polls)));
    }

    /** `submit_job`: the server is looked up by hostname; on a non-empty answer the table is refetched. */
    method SubmitJob(hostname: string, jobPath: string, scriptName: Option<string>, channel: Channel,
                     decode: string -> Option<seq<FeedObject>>) returns (ok: bool)
      modifies this
      ensures var target := FindServer(servers, ByHostname, hostname);
        var script := if scriptName.None? then config.submitScriptName else scriptName.value;
        ok <==> target.Some? && Truthy(Exec(channel, servers[target.value], SubmitCommand(config.qsubPath, jobPath, script)))
      ensures ok ==> allJobs == Fetched(servers, scriptPath, channel, decode)
      ensures !ok ==> allJobs == old(allJobs)
    {
      var script := if scriptName.None? then config.submitScriptName else scriptName.value;
      var located := LocateServer(servers, ByHostname, hostname);
      if located.None? {
        return false;
      }
      var k := located.value;
      var output := Exec(channel, servers[k], SubmitCommand(config.qsubPath, jobPath, script));
      if Truthy(output) {
        var _ := FetchAllJobs(channel, decode);
        return true;
      }
      return false;
    }
  }

  /**
   * `kill_job` compares a given server with the configured names while
   * `submit_job` compares with hostnames: the same hostname string that
   * submits to a server cannot name it for a kill unless it is also its name.
   */
  lemma HostnameDoesNotNameServerForKill(jobs: seq<JobRecord>, servers: seq<Server>, jobId: string, host: string)
    requires host != ""
    requires forall k :: 0 <= k < |servers| ==> servers[k].name != host
    requires exists k :: 0 <= k < |servers| && servers[k].hostname == host
    ensures KillTarget(jobs, servers, jobId, Some(host)).None?
    ensures FindServer(servers, ByHostname, host).Some?
  {
    var k :| 0 <= k < |servers| && servers[k].hostname == host;
    assert ServerAttr(servers[k], ByHostname) == host;
  }
}
