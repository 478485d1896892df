/**
 * The remote command channel. The SSH transport itself is not modelled: a
 * `Channel` says, for a server and a shell command, whether the connection
 * failed or what the command wrote to stdout and stderr. `ConnectAndExecute`
 * is the decision `PBSJobManager.connect_and_execute` takes on that answer.
 */
module Remote {
  import opened Wrappers

  /** A configured server after `_setup_servers`: address, display label and login. */
  datatype Server = Server(hostname: string, name: string, username: string)

  /** One entry of the `servers` list of the configuration. */
  datatype ServerEntry = ServerEntry(hostname: string, name: string)

  /** What one command execution produced: a connection-level failure or the two captured streams. */
  datatype Transport = Unreachable | Completed(stdout: string, stderr: string)

  type Channel = (Server, string) -> Transport

  /**
   * `connect_and_execute`: `None` on a connection failure, and also when the
   * command wrote to stderr but nothing to stdout; otherwise stdout, which may
   * be empty.
   */
  function ConnectAndExecute(raw: Transport): (r: Option<string>)
    ensures r.None? <==> raw.Unreachable? || (raw.stderr != "" && raw.stdout == "")
    ensures r.Some? ==> r.value == raw.stdout
  {
    match raw
    case Unreachable => None
    case Completed(out, err) => if err != "" && out == "" then None else Some(out)
  }

  function Exec(channel: Channel, server: Server, command: string): Option<string> {
    ConnectAndExecute(channel(server, command))
  }

  /** Python's truth value of the channel's answer: `None` and `""` are false. */
  predicate Truthy(output: Option<string>) {
    output.Some? && output.value != ""
  }

  /** A command that printed nothing at all is a success with empty output, not a failure. */
  lemma SilentCommandSucceeds(channel: Channel, server: Server, command: string)
    requires channel(server, command) == Completed("", "")
    ensures Exec(channel, server, command) == Some("")
    ensures !Truthy(Exec(channel, server, command))
  {
  }

  /** `_setup_servers`: every configured server, in order, logged into as `user`. */
  function SetupServers(entries: seq<ServerEntry>, user: string): (r: seq<Server>)
    ensures |r| == |entries|
    ensures forall i :: 0 <= i < |r| ==>
      r[i].hostname == entries[i].hostname && r[i].name == entries[i].name && r[i].username == user
  {
    if entries == [] then []
    else [Server(entries[0].hostname, entries[0].name, user)] + SetupServers(entries[1..], user)
  }
}
