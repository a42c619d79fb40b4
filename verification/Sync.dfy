/** One replication pass of a replica: list, fetch what is missing, unlink what the master no longer has. */
module Sync {
  import opened Options
  import opened Octets
  import opened FileTree
  import opened Listing
  import opened ListingLaws

  /**
   * What a download gives: a body that ended, an error status, no connection, or a body that broke
   * off with an error. A body that ended is taken as it is; its size is compared only for a warning.
   */
  datatype Fetch = Served(data: Bytes) | NotOk | Unreachable | CutOff(data: Bytes)

  /** The answer to the list request; `Failed` is an error status, a lost connection or a bad body. */
  datatype Response = Failed | Files(files: seq<FileEntry>, header: Option<string>)

  /** Paths whose mkdir, open for writing, or unlink fails although the tree allows it. */
  datatype Faults = Faults(mkdir: set<Path>, opens: set<Path>, unlink: set<Path>)

  const NO_FAULTS := Faults({}, {}, {})

  function Paths(files: seq<FileEntry>): set<Path> {
    set i | 0 <= i < |files| :: files[i].path
  }

  /** The entries that `others` lacks, ignored paths left out. */
  function Without(files: seq<FileEntry>, others: seq<FileEntry>, ignored: Path -> bool): seq<FileEntry> {
    if files == [] then []
    else if files[0].path in Paths(others) || ignored(files[0].path) then Without(files[1..], others, ignored)
    else [files[0]] + Without(files[1..], others, ignored)
  }

  /** createWriteStream and the stream into it: follows a link, needs the parent directory. */
  function Written(t: Tree, p: Path, data: Bytes, refused: bool): (Tree, bool) {
    var to := if p in t && t[p].Link? then t[p].target else p;
    if refused || to == [] || to[..|to| - 1] !in t || !t[to[..|to| - 1]].Dir? || (to in t && !t[to].File?)
    then (t, false)
    else (t[to := File(data)], true)
  }

  /** One download. The flag is false when the whole pass is abandoned. */
  function Fetched(t: Tree, root: Path, f: Path, reply: Fetch, io: Faults): (Tree, bool) {
    var p := root + f;
    var made := if p == [] || Stat(t, p).Some? then (t, true) else MadeDirs(t, p[..|p| - 1], p in io.mkdir);
    if !made.1 then made
    else match reply
      case NotOk => made
      case Unreachable => (made.0, false)
      case Served(data) => Written(made.0, p, data, p in io.opens)
      case CutOff(data) => (Written(made.0, p, data, p in io.opens).0, false)
  }

  function Downloads(t: Tree, root: Path, fs: seq<FileEntry>, net: Path -> Fetch, io: Faults): (Tree, bool)
    decreases |fs|
  {
    if fs == [] then (t, true)
    else
      var step := Fetched(t, root, fs[0].path, net(fs[0].path), io);
      if step.1 then Downloads(step.0, root, fs[1..], net, io) else step
  }

  function Unlinked(t: Tree, p: Path, refused: bool): (Tree, bool) {
    if p !in t || t[p].Dir? || refused then (t, false) else (t - {p}, true)
  }

  function Deletions(t: Tree, root: Path, fs: seq<FileEntry>, io: Faults): (Tree, bool)
    decreases |fs|
  {
    if fs == [] then (t, true)
    else
      var p := root + fs[0].path;
      var step := Unlinked(t, p, p in io.unlink);
      if step.1 then Deletions(step.0, root, fs[1..], io) else step
  }

  /** A missing header means complete. */
  function Doomed(mine: seq<FileEntry>, resp: Response, ignored: Path -> bool): seq<FileEntry>
    requires resp.Files?
  {
    if resp.header == Some("0") then [] else Without(mine, resp.files, ignored)
  }

  /** The tree a pass leaves, given the replica's own listing. */
  function Pass(t: Tree, root: Path, mine: seq<FileEntry>, resp: Response, ignored: Path -> bool,
                net: Path -> Fetch, io: Faults): Tree {
    if resp.Failed? then t
    else
      var fetched := Downloads(t, root, Without(resp.files, mine, ignored), net, io);
      if !fetched.1 then fetched.0 else Deletions(fetched.0, root, Doomed(mine, resp, ignored), io).0
  }

  class ReplicationService {
    const root: Path
    const ignored: Path -> bool
    const disk: Disk
    var isReplicating: bool

    constructor (root: Path, ignored: Path -> bool, disk: Disk)
      ensures this.root == root && this.ignored == ignored && this.disk == disk && !isReplicating
    {
      this.root, this.ignored, this.disk, isReplicating := root, ignored, disk, false;
    }

    /** replicate(), as a replica: a pass, unless one is under way. */
    method Replicate(sys: Syscalls, resp: Response, net: Path -> Fetch, io: Faults) returns (ghost mine: seq<FileEntry>)
      modifies this, disk
      ensures isReplicating == old(isReplicating)
      ensures isReplicating ==> disk.nodes == old(disk.nodes)
      ensures !isReplicating ==>
        && Lists(old(disk.nodes), root, mine, Listed(old(disk.nodes), root, sys))
        && disk.nodes == Pass(old(disk.nodes), root, mine, resp, ignored, net, io)
    {
      mine := [];
      if isReplicating {
        return;
      }
      isReplicating := true;
      var replicaFiles, _ := ListCloudDirDetailed(disk.nodes, root, sys);
      mine := replicaFiles;
      match resp {
        case Failed =>
        case Files(masterFiles, header) =>
          var missing := Select(masterFiles, replicaFiles);
          var ok := Download(missing, net, io);
          if ok {
            var surplus := [];
            if header != Some("0") {
              surplus := Select(replicaFiles, masterFiles);
            }
            Delete(surplus, io);
          }
      }
      isReplicating := false;
    }

    /** The two filters of replicate(). */
    method Select(files: seq<FileEntry>, others: seq<FileEntry>) returns (kept: seq<FileEntry>)
      ensures kept == Without(files, others, ignored)
    {
      kept := [];
      var i := 0;
      while i < |files|
        invariant 0 <= i <= |files|
        invariant kept + Without(files[i..], others, ignored) == Without(files, others, ignored)
      {
        assert files[i..][1..] == files[i + 1..];
        if files[i].path !in Paths(others) && !ignored(files[i].path) {
          kept := kept + [files[i]];
        }
        i := i + 1;
      }
    }

    method Download(missing: seq<FileEntry>, net: Path -> Fetch, io: Faults) returns (ok: bool)
      modifies disk
      ensures (disk.nodes, ok) == Downloads(old(disk.nodes), root, missing, net, io)
    {
      ghost var t := disk.nodes;
      var i := 0;
      while i < |missing|
        invariant 0 <= i <= |missing|
        invariant Downloads(disk.nodes, root, missing[i..], net, io) == Downloads(t, root, missing, net, io)
      {
        assert missing[i..][1..] == missing[i + 1..];
        ok := DownloadOne(missing[i].path, net(missing[i].path), io);
        if !ok {
          return;
        }
        i := i + 1;
      }
      ok := true;
    }

    /** The body of the download loop. */
    method DownloadOne(f: Path, reply: Fetch, io: Faults) returns (ok: bool)
      modifies disk
      ensures (disk.nodes, ok) == Fetched(old(disk.nodes), root, f, reply, io)
    {
      var p := root + f;
      ok := true;
      if p != [] && Stat(disk.nodes, p).None? {
        ok := disk.Apply(MadeDirs(disk.nodes, p[..|p| - 1], p in io.mkdir));
        if !ok {
          return;
        }
      }
      match reply
      case NotOk =>
      case Unreachable =>
        ok := false;
      case Served(data) =>
        ok := disk.Apply(Written(disk.nodes, p, data, p in io.opens));
      case CutOff(data) =>
        var _ := disk.Apply(Written(disk.nodes, p, data, p in io.opens));
        ok := false;
    }

    method Delete(surplus: seq<FileEntry>, io: Faults)
      modifies disk
      ensures disk.nodes == Deletions(old(disk.nodes), root, surplus, io).0
    {
      ghost var t := disk.nodes;
      var i := 0;
      while i < |surplus|
        invariant 0 <= i <= |surplus|
        invariant Deletions(disk.nodes, root, surplus[i..], io) == Deletions(t, root, surplus, io)
      {
        assert surplus[i..][1..] == surplus[i + 1..];
        var p := root + surplus[i].path;
        var ok := disk.Apply(Unlinked(disk.nodes, p, p in io.unlink));
        if !ok {
          return;
        }
        i := i + 1;
      }
    }
  }
}
