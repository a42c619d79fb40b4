/** When a pass changes the bytes of a file the replica already had. */
module SyncOverwrites {
  import opened Options
  import opened Octets
  import opened FileTree
  import opened Listing
  import opened ListingLaws
  import opened Sync
  import opened SyncLaws
  import opened SyncConvergence

  /** The reply puts other bytes than `data` into the file it is written to. */
  predicate BringsOther(reply: Fetch, data: Bytes) {
    match reply
    case Served(d) => d != data
    case CutOff(d) => d != data
    case _ => false
  }

  /** The file is there and holds something else now. */
  predicate Changed(u: Tree, p: Path, data: Bytes) {
    p in u && u[p] != File(data)
  }

  lemma {:induction false} DownloadsTogether(t: Tree, root: Path, a: seq<FileEntry>, b: seq<FileEntry>,
                                             net: Path -> Fetch,
                                             io: Faults)
    ensures var r := Downloads(t, root, a, net, io);
            Downloads(t, root, a + b, net, io) == if r.1 then Downloads(r.0, root, b, net, io) else r
    decreases |a|
  {
    hide Fetched;
    if a == [] {
      assert a + b == b;
    } else {
      assert (a + b)[1..] == a[1..] + b;
      var step := Fetched(t, root, a[0].path, net(a[0].path), io);
      if step.1 {
        DownloadsTogether(step.0, root, a[1..], b, net, io);
      }
    }
  }

  /** Fetching a file that is there already writes straight into it. */
  lemma FetchedOver(t: Tree, root: Path, rel: Path, data: Bytes, reply: Fetch, io: Faults)
    requires FileSystem(t, root) && PlainFile(t, root + rel, data)
    ensures var p, r := root + rel, Fetched(t, root, rel, reply, io);
            if (reply.Served? || reply.CutOff?) && p !in io.opens
            then r == (t[p := File(reply.data)], reply.Served?) && PlainFile(r.0, p, reply.data)
            else r == (t, reply.NotOk?)
  {
    var p := root + rel;
    assert rel == [] ==> p == root;
    assert p != [] && p[..|p| - 1] in t && t[p[..|p| - 1]].Dir?;
  }

  /** The download of `rel` is number `i`, and the earlier ones get through to it. */
  predicate GetsTo(t: Tree, root: Path, missing: seq<FileEntry>, net: Path -> Fetch, io: Faults, rel: Path, i: nat) {
    i < |missing| && missing[i].path == rel && Downloads(t, root, missing[..i], net, io).1
  }

  lemma NotAgain(missing: seq<FileEntry>, i: nat, root: Path)
    requires Unique(missing) && i < |missing|
    ensures forall e :: e in missing[..i] || e in missing[i + 1..] ==> root + e.path != root + missing[i].path
  {
    forall e | e in missing[..i] || e in missing[i + 1..] ensures root + e.path != root + missing[i].path {
      assert (root + e.path)[|root|..] == e.path && (root + missing[i].path)[|root|..] == missing[i].path;
    }
  }

  /** What the downloads of a pass make of a plain file that is on their list. */
  lemma DownloadedOver(t: Tree, root: Path, missing: seq<FileEntry>, net: Path -> Fetch, io: Faults, rel: Path,
                       data: Bytes,
                       i: nat)
    requires FileSystem(t, root) && PlainFile(t, root + rel, data)
    requires Unique(missing) && i < |missing| && missing[i].path == rel
    ensures var p, u := root + rel, Downloads(t, root, missing, net, io).0;
            if GetsTo(t, root, missing, net, io, rel, i) && p !in io.opens && (net(rel).Served? || net(rel).CutOff?)
            then PlainFile(u, p, net(rel).data) else PlainFile(u, p, data)
  {
    hide FileSystem, PlainFile, Fetched, Downloads;
    var p, before, behind := root + rel, missing[..i], missing[i + 1..];
    NotAgain(missing, i, root);
    DownloadsSpareTheRest(t, root, before, net, io, p, data);
    DownloadsKeepFileSystem(t, root, before, net, io);
    assert missing == before + ([missing[i]] + behind);
    DownloadsTogether(t, root, before, [missing[i]] + behind, net, io);
    var s := Downloads(t, root, before, net, io);
    if s.1 {
      FetchedOver(s.0, root, rel, data, net(rel), io);
      OneDownload(s.0, root, missing[i], behind, net, io);
      var f := Fetched(s.0, root, rel, net(rel), io);
      var now := if (net(rel).Served? || net(rel).CutOff?) && p !in io.opens then net(rel).data else data;
      DownloadsSpareTheRest(f.0, root, behind, net, io, p, now);
    }
  }

  lemma OneDownload(t: Tree, root: Path, e: FileEntry, rest: seq<FileEntry>, net: Path -> Fetch, io: Faults)
    ensures var step := Fetched(t, root, e.path, net(e.path), io);
            Downloads(t, root, [e] + rest, net, io) == if step.1 then Downloads(step.0, root, rest, net, io) else step
  {
    assert ([e] + rest)[1..] == rest;
  }

  /** A path the answer lists is not unlinked, nor is anything else done to it by the deletions. */
  lemma DeletionsSpare(t: Tree, root: Path, mine: seq<FileEntry>, resp: Response, ignored: Path -> bool, io: Faults,
                       rel: Path)
    requires resp.Files? && rel in Paths(resp.files)
    ensures var p, u := root + rel, Deletions(t, root, Doomed(mine, resp, ignored), io).0;
            p in t ==> p in u && u[p] == t[p]
  {
    var doomed := Doomed(mine, resp, ignored);
    DeletionsOnlyUnlink(t, root, doomed, io);
    WithoutContents(mine, resp.files, ignored);
    forall r | r in Paths(doomed) ensures root + r != root + rel {
      var i :| 0 <= i < |doomed| && doomed[i].path == r;
      assert doomed[i] in doomed && r !in Paths(resp.files);
      assert (root + r)[|root|..] == r && (root + rel)[|root|..] == rel;
    }
  }

  /**
   * A pass changes the bytes of a file the replica had exactly when the master lists it, the replica's own
   * listing does not (its walk passed it over), it is not ignored, the downloads before it get through,
   * and what comes, whole or broken off, are other bytes.
   */
  lemma APassChangesAFileIff(t: Tree, root: Path, mine: seq<FileEntry>, resp: Response, ignored: Path -> bool,
                             net: Path -> Fetch, io: Faults, rel: Path, data: Bytes)
    requires FileSystem(t, root) && PlainFile(t, root + rel, data) && (resp.Files? ==> Unique(resp.files))
    ensures Changed(Pass(t, root, mine, resp, ignored, net, io), root + rel, data) <==>
            resp.Files? && root + rel !in io.opens && BringsOther(net(rel), data)
            && exists i :: GetsTo(t, root, Without(resp.files, mine, ignored), net, io, rel, i)
    ensures forall i: nat :: resp.Files? && GetsTo(t, root, Without(resp.files, mine, ignored), net, io, rel, i) ==>
              rel in Paths(resp.files) && rel !in Paths(mine) && !ignored(rel)
  {
    if resp.Files? {
      hide FileSystem, Downloads, Deletions, Doomed;
      var missing := Without(resp.files, mine, ignored);
      WithoutContents(resp.files, mine, ignored);
      WithoutUnique(resp.files, mine, ignored);
      if i: nat :| i < |missing| && missing[i].path == rel {
        MissingMeans(missing, resp.files, mine, ignored, i);
        DownloadedOver(t, root, missing, net, io, rel, data, i);
        DeletionsSpare(Downloads(t, root, missing, net, io).0, root, mine, resp, ignored, io, rel);
      } else {
        NotOnTheList(t, root, mine, resp, ignored, net, io, rel, data);
      }
    }
  }

  lemma MissingMeans(missing: seq<FileEntry>, files: seq<FileEntry>, mine: seq<FileEntry>, ignored: Path -> bool,
                     i: nat)
    requires missing == Without(files, mine, ignored) && i < |missing|
    ensures missing[i].path in Paths(files) && missing[i].path !in Paths(mine) && !ignored(missing[i].path)
  {
    WithoutContents(files, mine, ignored);
    assert missing[i] in missing;
    var j :| 0 <= j < |files| && files[j] == missing[i];
    assert files[j].path in Paths(files);
  }

  lemma NotOnTheList(t: Tree, root: Path, mine: seq<FileEntry>, resp: Response, ignored: Path -> bool,
                     net: Path -> Fetch, io: Faults, rel: Path, data: Bytes)
    requires resp.Files? && PlainFile(t, root + rel, data)
    requires forall i :: 0 <= i < |Without(resp.files, mine, ignored)| ==>
             Without(resp.files, mine, ignored)[i].path != rel
    ensures !Changed(Pass(t, root, mine, resp, ignored, net, io), root + rel, data)
  {
    var missing := Without(resp.files, mine, ignored);
    forall e | e in missing ensures root + e.path != root + rel {
      assert (root + e.path)[|root|..] == e.path && (root + rel)[|root|..] == rel;
    }
    DownloadsSpareTheRest(t, root, missing, net, io, root + rel, data);
    DeletionsOnlyUnlink(Downloads(t, root, missing, net, io).0, root, Doomed(mine, resp, ignored), io);
  }

  /** With its own walk clean a replica overwrites nothing: only a file its walk could not account for is at risk. */
  lemma OnlyAFilePassedOverChanges(t: Tree, root: Path, sys: Syscalls, mine: seq<FileEntry>, resp: Response,
                                   ignored: Path -> bool, net: Path -> Fetch, io: Faults, rel: Path, data: Bytes)
    requires FileSystem(t, root) && PlainFile(t, root + rel, data) && (resp.Files? ==> Unique(resp.files))
    requires Lists(t, root, mine, Listed(t, root, sys))
    requires Changed(Pass(t, root, mine, resp, ignored, net, io), root + rel, data)
    ensures root + rel !in Listed(t, root, sys) && !Clean(t, root, sys)
  {
    hide FileSystem, Pass, Lists, Listed, Clean, Without;
    APassChangesAFileIff(t, root, mine, resp, ignored, net, io, rel, data);
    ListedPaths(t, root, mine, Listed(t, root, sys));
    LeavesOfAFileSystem(t, root);
    if Clean(t, root, sys) {
      CompleteListingHasEveryLeaf(t, root, sys);
    }
  }

  // ------------------------------------------------------------------ over every network

  predicate NothingAbove(t: Tree, p: Path) {
    forall k :: 0 <= k < |p| ==> !Leaf(t, p[..k])
  }

  /** With error statuses for answers, downloads get through a list exactly when nothing is above its files. */
  lemma {:induction false} RefusalsGetThrough(t: Tree, root: Path, fs: seq<FileEntry>, net: Path -> Fetch)
    requires FileSystem(t, root) && forall e :: e in fs ==> net(e.path).NotOk? && NothingAbove(t, root + e.path)
    ensures Downloads(t, root, fs, net, NO_FAULTS).1
    decreases |fs|
  {
    hide FileSystem, Fetched, NothingAbove;
    if fs != [] {
      assert fs[0] in fs && forall e :: e in fs[1..] ==> e in fs;
      ARefusalOnlyMakesDirectories(t, root, fs[0].path);
      var s := Fetched(t, root, fs[0].path, NotOk, NO_FAULTS).0;
      FetchedKeepsFileSystem(t, root, fs[0].path, NotOk, NO_FAULTS);
      forall e | e in fs[1..] ensures NothingAbove(s, root + e.path) {
        StillNothingAbove(t, s, root + e.path);
      }
      RefusalsGetThrough(s, root, fs[1..], net);
    }
  }

  lemma StillNothingAbove(t: Tree, s: Tree, p: Path)
    requires NothingAbove(t, p) && forall q :: Leaf(s, q) ==> Leaf(t, q)
    ensures NothingAbove(s, p)
  {
  }

  lemma ARefusalOnlyMakesDirectories(t: Tree, root: Path, f: Path)
    requires NothingAbove(t, root + f)
    ensures var r := Fetched(t, root, f, NotOk, NO_FAULTS);
            r.1 && forall q :: Leaf(r.0, q) ==> Leaf(t, q)
  {
    var p := root + f;
    if p != [] {
      var dir := p[..|p| - 1];
      forall k | 0 <= k <= |dir| ensures dir[..k] == p[..k] && !Leaf(t, dir[..k]) {
        assert dir[..k] == p[..k];
      }
    }
  }

  /**
   * Some network and some failures make a pass change a file the replica had, exactly when the file is
   * missing from the replica's own listing, listed by the master, not ignored, and no earlier download
   * is bound to fail for a leaf in its way.
   */
  lemma AFileIsAtRiskIff(t: Tree, root: Path, mine: seq<FileEntry>, resp: Response, ignored: Path -> bool, rel: Path,
                         data: Bytes)
    requires FileSystem(t, root) && PlainFile(t, root + rel, data) && resp.Files? && Unique(resp.files)
    ensures (exists net, io :: Changed(Pass(t, root, mine, resp, ignored, net, io), root + rel, data)) <==>
            exists i :: AtRisk(t, root, Without(resp.files, mine, ignored), rel, i)
  {
    hide FileSystem, PlainFile, Pass, Without;
    var missing := Without(resp.files, mine, ignored);
    if net, io :| Changed(Pass(t, root, mine, resp, ignored, net, io), root + rel, data) {
      APassChangesAFileIff(t, root, mine, resp, ignored, net, io, rel, data);
      var i: nat :| GetsTo(t, root, missing, net, io, rel, i);
      forall k | 0 <= k < i ensures NothingAbove(t, root + missing[k].path) {
        assert missing[..i][k] == missing[k];
        GettingThroughMeans(t, root, missing[..i], net, io, missing[k]);
      }
      assert AtRisk(t, root, missing, rel, i);
    }
    if i: nat :| AtRisk(t, root, missing, rel, i) {
      var net := (f: Path) => if f == rel then CutOff(data + [0]) else NotOk;
      WithoutUnique(resp.files, mine, ignored);
      NotAgain(missing, i, root);
      RefusalsGetThrough(t, root, missing[..i], net);
      assert GetsTo(t, root, missing, net, NO_FAULTS, rel, i);
      APassChangesAFileIff(t, root, mine, resp, ignored, net, NO_FAULTS, rel, data);
    }
  }

  /** The file is number `i` of what is to be downloaded, and nothing stands above the ones before it. */
  predicate AtRisk(t: Tree, root: Path, missing: seq<FileEntry>, rel: Path, i: nat) {
    && i < |missing| && missing[i].path == rel
    && forall k :: 0 <= k < i ==> NothingAbove(t, root + missing[k].path)
  }

  lemma GettingThroughMeans(t: Tree, root: Path, fs: seq<FileEntry>, net: Path -> Fetch, io: Faults, e: FileEntry)
    requires FileSystem(t, root) && e in fs && Downloads(t, root, fs, net, io).1
    ensures NothingAbove(t, root + e.path)
  {
    var p := root + e.path;
    if k :| 0 <= k < |p| && Leaf(t, p[..k]) {
      AClashStopsTheDownloads(t, root, fs, net, io, e);
    }
  }

  /**
   * The input: one lstat of the replica's own walk fails, the master ends the body of that file early, and a
   * good copy on both sides is empty on the replica, for good.
   */
  lemma AGoodCopyIsTruncated(b: bv8)
    ensures var t: Tree := map[[] := Dir, ["a"] := File([b])];
            var sys := Syscalls({}, {["a"]}, {}, {});
            var resp := Files([FileEntry(["a"], 1)], Some("1"));
            && Lists(t, [], [], Listed(t, [], sys))
            && Pass(t, [], [], resp, p => false, p => Served([]), NO_FAULTS) == map[[] := Dir, ["a"] := File([])]
  {
    var t: Tree := map[[] := Dir, ["a"] := File([b])];
    var files, net := [FileEntry(["a"], 1)], (p: Path) => Served([]);
    assert Listed(t, [], Syscalls({}, {["a"]}, {}, {})) == {};
    assert Paths([]) == {} && files[1..] == [];
    assert Without(files, [], p => false) == files;
    assert [] + ["a"] == ["a"] && ["a"][..0] == [];
    var u := t[["a"] := File([])];
    assert Fetched(t, [], ["a"], Served([]), NO_FAULTS) == (u, true);
    OneDownload(t, [], files[0], [], net, NO_FAULTS);
    assert [files[0]] + [] == files;
    assert Downloads(t, [], files, net, NO_FAULTS) == (u, true);
    assert Without([], files, p => false) == [];
  }
}
