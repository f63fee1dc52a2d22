/** The sequential file store that test_scripts/watson.py replays an audit log through. */
module Store {
  import opened Messages

  type Uri = string
  type Files = map<Uri, Bytes>

  datatype Op = Get(uri: Uri) | Put(uri: Uri, body: Bytes)
  datatype Reply = Reply(status: nat, body: Bytes)

  /** What a client is told when `op` runs alone against `files`. */
  function Respond(files: Files, op: Op): Reply {
    match op
    case Get(uri) => if uri in files then Reply(200, files[uri]) else Reply(404, "Not Found\n")
    case Put(uri, _) => if uri in files then Reply(200, "OK\n") else Reply(201, "Created\n")
  }

  /** The files after `op` ran alone. */
  function Apply(files: Files, op: Op): Files {
    match op
    case Get(_) => files
    case Put(uri, body) => files[uri := body]
  }

  /** The files after replaying `ops` in order. */
  function ReplayOps(files: Files, ops: seq<Op>): Files {
    if ops == [] then files
    else Apply(ReplayOps(files, ops[..|ops| - 1]), ops[|ops| - 1])
  }
}
