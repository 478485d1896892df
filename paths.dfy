/**
 * Path translation between a Windows drive and a Linux server:
 * `windows_to_linux_path`, `get_drive_letter` and the reverse table
 * `server_to_drive` built in the constructor of `PBSJobManager`.
 */
module PathMapping {
  import opened Wrappers
  import opened Text

  /** The `drive_mapping` section, drive letter to hostname, in configuration order. */
  type DriveMapping = seq<(string, string)>

  /** A Python dict never holds a key twice. */
  predicate DistinctDrives(m: DriveMapping) {
    forall i, j :: 0 <= i < j < |m| ==> m[i].0 != m[j].0
  }

  /** No two drives name the same host, so the reverse table loses nothing. */
  predicate DistinctHosts(m: DriveMapping) {
    forall i, j :: 0 <= i < j < |m| ==> m[i].1 != m[j].1
  }

  /** `drive_mapping[drive]`, `None` when `drive not in drive_mapping`. */
  function Lookup(m: DriveMapping, drive: string): (r: Option<string>)
    ensures r.None? <==> forall i :: 0 <= i < |m| ==> m[i].0 != drive
    ensures r.Some? ==> exists i :: 0 <= i < |m| && m[i] == (drive, r.value)
  {
    if m == [] then None
    else if m[0].0 == drive then Some(m[0].1)
    else
      var r := Lookup(m[1..], drive);
      assert forall i :: 1 <= i < |m| ==> m[i] == m[1..][i - 1];
      r
  }

  /** With distinct drives, the pair a drive appears in is the one `Lookup` finds. */
  lemma {:induction false} LookupPair(m: DriveMapping, i: int)
    requires DistinctDrives(m) && 0 <= i < |m|
    ensures Lookup(m, m[i].0) == Some(m[i].1)
  {
    if i > 0 && m[0].0 != m[i].0 {
      assert m[1..][i - 1] == m[i];
      LookupPair(m[1..], i - 1);
    }
  }

  /** `windows_path[0].upper()`. */
  function DriveOf(path: string): string
    requires |path| > 0
  {
    [UpperChar(path[0])]
  }

  /** `s.replace('\\', '/')`. */
  function Slashed(s: string): (r: string)
    ensures |r| == |s|
    ensures forall i :: 0 <= i < |s| ==> r[i] == (if s[i] == '\\' then '/' else s[i])
  {
    if s == [] then [] else [if s[0] == '\\' then '/' else s[0]] + Slashed(s[1..])
  }

  datatype Translation = NotMapped | Mapped(hostname: string, linuxPath: string)

  /**
   * `windows_to_linux_path` on an absolute path: `NotMapped` (the source's
   * `(None, None)`) when the upper-cased first character is not a mapped drive;
   * otherwise the mapped host and `base/user` followed by everything after the
   * drive and colon, with each backslash turned into a slash.
   */
  function WindowsToLinuxPath(m: DriveMapping, linuxBasePath: string, user: string, path: string): (r: Translation)
    requires |path| > 0
    ensures r.NotMapped? <==> Lookup(m, DriveOf(path)).None?
    ensures r.Mapped? ==> r.hostname == Lookup(m, DriveOf(path)).value
    ensures r.Mapped? ==> var root := linuxBasePath + "/" + user;
      && StartsWith(r.linuxPath, root)
      && |r.linuxPath| == |root| + (if |path| < 2 then 0 else |path| - 2)
      && (forall k :: 2 <= k < |path| ==>
            r.linuxPath[|root| + k - 2] == (if path[k] == '\\' then '/' else path[k]))
      && (forall k :: |root| <= k < |r.linuxPath| ==> r.linuxPath[k] != '\\')
  {
    match Lookup(m, DriveOf(path))
    case None => NotMapped
    case Some(hostname) =>
      var afterDrive := if |path| < 2 then "" else path[2..];
      Mapped(hostname, linuxBasePath + "/" + user + Slashed(afterDrive))
  }

  /** `get_drive_letter`: the upper-cased first character, `None` for an empty path. */
  function GetDriveLetter(path: string): (r: Option<string>)
    ensures r.None? <==> path == []
    ensures r.Some? ==> |r.value| == 1 && r.value[0] == UpperChar(path[0])
  {
    if |path| > 0 then Some(DriveOf(path)) else None
  }

  /**
   * The drive check of `submit_job_interactive` (`drive in drive_mapping`) and
   * `windows_to_linux_path` agree on every path: one accepts exactly what the
   * other maps.
   */
  lemma DriveCheckAgrees(m: DriveMapping, linuxBasePath: string, user: string, path: string)
    requires |path| > 0
    ensures WindowsToLinuxPath(m, linuxBasePath, user, path).Mapped?
        <==> exists i :: 0 <= i < |m| && m[i].0 == GetDriveLetter(path).value
  {
  }

  /**
   * `{hostname: drive for drive, hostname in drive_mapping.items()}`: later
   * entries overwrite earlier ones with the same host.
   */
  function ServerToDrive(m: DriveMapping): (r: map<string, string>)
    ensures r.Keys == set i | 0 <= i < |m| :: m[i].1
  {
    if m == [] then map[]
    else
      var prev := ServerToDrive(m[..|m| - 1]);
      assert forall i :: 0 <= i < |m| - 1 ==> m[..|m| - 1][i] == m[i];
      prev[m[|m| - 1].1 := m[|m| - 1].0]
  }

  /** The reverse table picks, for each host, the drive of the host's last entry. */
  lemma {:induction false} ServerToDriveLastWins(m: DriveMapping, j: int)
    requires 0 <= j < |m|
    requires forall k :: j < k < |m| ==> m[k].1 != m[j].1
    ensures ServerToDrive(m)[m[j].1] == m[j].0
  {
    if j < |m| - 1 {
      assert m[..|m| - 1][j] == m[j];
      ServerToDriveLastWins(m[..|m| - 1], j);
    }
  }

  /**
   * Host to drive to host: the drive the reverse table gives for a host is
   * mapped back to that same host, whether or not hosts are distinct.
   */
  lemma {:induction false} ReverseThenForward(m: DriveMapping, hostname: string)
    requires DistinctDrives(m)
    requires hostname in ServerToDrive(m)
    ensures Lookup(m, ServerToDrive(m)[hostname]) == Some(hostname)
  {
    var j := LastIndexOfHost(m, hostname);
    ServerToDriveLastWins(m, j);
    LookupPair(m, j);
  }

  /** Drive to host to drive: with distinct hosts, the reverse table inverts the mapping. */
  lemma ForwardThenReverse(m: DriveMapping, i: int)
    requires DistinctHosts(m) && 0 <= i < |m|
    ensures ServerToDrive(m)[m[i].1] == m[i].0
  {
    ServerToDriveLastWins(m, i);
  }

  /**
   * Every host a path translates to has a drive in the reverse table, and with
   * distinct hosts that drive is the path's own.
   */
  lemma TranslationHasReverseDrive(m: DriveMapping, linuxBasePath: string, user: string, path: string)
    requires |path| > 0
    requires DistinctDrives(m)
    requires WindowsToLinuxPath(m, linuxBasePath, user, path).Mapped?
    ensures WindowsToLinuxPath(m, linuxBasePath, user, path).hostname in ServerToDrive(m)
    ensures DistinctHosts(m) ==>
      ServerToDrive(m)[WindowsToLinuxPath(m, linuxBasePath, user, path).hostname] == DriveOf(path)
  {
    var h := WindowsToLinuxPath(m, linuxBasePath, user, path).hostname;
    var i :| 0 <= i < |m| && m[i] == (DriveOf(path), h);
    if DistinctHosts(m) {
      ForwardThenReverse(m, i);
    }
  }

  function LastIndexOfHost(m: DriveMapping, hostname: string): (j: int)
    requires exists i :: 0 <= i < |m| && m[i].1 == hostname
    ensures 0 <= j < |m| && m[j].1 == hostname
    ensures forall k :: j < k < |m| ==> m[k].1 != hostname
  {
    if m[|m| - 1].1 == hostname then |m| - 1
    else
      var front := m[..|m| - 1];
      assert exists i :: 0 <= i < |front| && front[i].1 == hostname by {
        var i :| 0 <= i < |m| && m[i].1 == hostname;
        assert front[i] == m[i];
      }
      var j := LastIndexOfHost(front, hostname);
      assert front[j] == m[j];
      j
  }
}
