/** When a pass makes the replica agree with the master, and the clashes that never heal. */
module SyncConvergence {
  import opened Options
  import opened Octets
  import opened FileTree
  import opened Listing
  import opened ListingLaws
  import opened Sync
  import opened SyncLaws

  /** A file system holding `root`: every proper prefix of a path in it is a directory. */
  ghost predicate FileSystem(t: Tree, root: Path) {
    && root in t && t[root].Dir?
    && forall q, k :: q in t && 0 <= k < |q| ==> q[..k] in t && t[q[..k]].Dir?
  }

  /** Something is in the way of a file at `p`: a directory at `p` itself, or a leaf above it. */
  predicate Clash(t: Tree, p: Path) {
    (p in t && t[p].Dir?) || exists k :: 0 <= k < |p| && Leaf(t, p[..k])
  }

  // ------------------------------------------------------------------ one download

  lemma MadeDirsKeepsFileSystem(t: Tree, root: Path, dir: Path, refused: bool)
    requires FileSystem(t, root)
    ensures FileSystem(MadeDirs(t, dir, refused).0, root)
    ensures MadeDirs(t, dir, refused).1 ==> dir in MadeDirs(t, dir, refused).0 && MadeDirs(t, dir, refused).0[dir].Dir?
  {
    var (u, ok) := MadeDirs(t, dir, refused);
    assert dir[..|dir|] == dir;
    forall q, k | q in u && 0 <= k < |q| ensures q[..k] in u && u[q[..k]].Dir? {
      if q !in t {
        var j :| 0 <= j <= |dir| && q == dir[..j];
        assert q[..k] == dir[..k];
      }
    }
  }

  lemma WrittenKeepsFileSystem(t: Tree, root: Path, p: Path, data: Bytes, refused: bool)
    requires FileSystem(t, root)
    ensures FileSystem(Written(t, p, data, refused).0, root)
  {
    var (u, ok) := Written(t, p, data, refused);
    if ok {
      var to := if p in t && t[p].Link? then t[p].target else p;
      var parent := to[..|to| - 1];
      forall q, k | q in u && 0 <= k < |q| ensures q[..k] in u && u[q[..k]].Dir? {
        if q !in t {
          assert q == to;
          if k < |parent| {
            assert q[..k] == parent[..k];
          } else {
            assert q[..k] == parent;
          }
        }
      }
    }
  }

  lemma FetchedKeepsFileSystem(t: Tree, root: Path, f: Path, reply: Fetch, io: Faults)
    requires FileSystem(t, root)
    ensures FileSystem(Fetched(t, root, f, reply, io).0, root)
  {
    hide FileSystem, Written, MadeDirs;
    var p := root + f;
    if p == [] || Stat(t, p).Some? {
      match reply
      case Served(data) => WrittenKeepsFileSystem(t, root, p, data, p in io.opens);
      case CutOff(data) => WrittenKeepsFileSystem(t, root, p, data, p in io.opens);
      case _ =>
    } else {
      var made := MadeDirs(t, p[..|p| - 1], p in io.mkdir).0;
      MadeDirsKeepsFileSystem(t, root, p[..|p| - 1], p in io.mkdir);
      match reply
      case Served(data) => WrittenKeepsFileSystem(made, root, p, data, p in io.opens);
      case CutOff(data) => WrittenKeepsFileSystem(made, root, p, data, p in io.opens);
      case _ =>
    }
  }

  /** Nothing can be created below a leaf. */
  lemma NothingBelowALeaf(t: Tree, root: Path, p: Path, k: nat, refused: bool)
    requires FileSystem(t, root) && k < |p| && Leaf(t, p[..k])
    ensures p !in t && MadeDirs(t, p[..|p| - 1], refused) == (t, false)
  {
    assert p[..|p| - 1][..k] == p[..k];
  }

  /** A clash abandons the pass there, unless the fetch itself is answered with an error status. */
  lemma AClashStopsTheDownload(t: Tree, root: Path, f: Path, reply: Fetch, io: Faults)
    requires FileSystem(t, root) && Clash(t, root + f)
    ensures reply.NotOk? || !Fetched(t, root, f, reply, io).1
    ensures (exists k :: 0 <= k < |root + f| && Leaf(t, (root + f)[..k])) ==> !Fetched(t, root, f, reply, io).1
    ensures Fetched(t, root, f, reply, io).0 == t
  {
    var p := root + f;
    if k :| 0 <= k < |p| && Leaf(t, p[..k]) {
      NothingBelowALeaf(t, root, p, k, p in io.mkdir);
    }
  }

  /** Without a clash, a served file arrives with its bytes, and only directories above it are new. */
  lemma AServedFileArrives(t: Tree, root: Path, f: Path, data: Bytes)
    requires FileSystem(t, root) && f != [] && root + f !in t && !Clash(t, root + f)
    ensures var p, (u, ok) := root + f, Fetched(t, root, f, Served(data), NO_FAULTS);
            && ok && FileSystem(u, root) && p in u && u[p] == File(data)
            && (forall q :: q in t ==> q in u && u[q] == t[q])
            && (forall q :: q in u && q !in t && q != p ==> u[q].Dir? && |q| < |p| && p[..|q|] == q)
  {
    var p := root + f;
    var dir := p[..|p| - 1];
    FetchedKeepsFileSystem(t, root, f, Served(data), NO_FAULTS);
    DirectoriesAreMade(t, root, p);
    hide FileSystem, MadeDirs, Clash;
    var made := MadeDirs(t, dir, false).0;
    assert Stat(t, p).None?;
    assert Written(made, p, data, false) == (made[p := File(data)], true);
  }

  /** mkdir -p where nothing is in the way: the parent is there, and only directories on the way are new. */
  lemma DirectoriesAreMade(t: Tree, root: Path, p: Path)
    requires FileSystem(t, root) && p != [] && p !in t && !Clash(t, p)
    ensures var dir, (u, ok) := p[..|p| - 1], MadeDirs(t, p[..|p| - 1], false);
            && ok && dir in u && u[dir].Dir? && p !in u
            && (forall q :: q in t ==> q in u && u[q] == t[q])
            && (forall q :: q in u && q !in t ==> u[q].Dir? && |q| < |p| && p[..|q|] == q)
  {
    var dir := p[..|p| - 1];
    MadeDirsKeepsFileSystem(t, root, dir, false);
    forall k | 0 <= k <= |dir| ensures dir[..k] == p[..k] && !Leaf(t, dir[..k]) {
      assert dir[..k] == p[..k];
    }
    forall q | q in MadeDirs(t, dir, false).0 && q !in t ensures |q| < |p| && p[..|q|] == q {
      var k :| 0 <= k <= |dir| && q == dir[..k];
    }
  }

  // ------------------------------------------------------------------ all downloads

  /** No file of the list lies at or below another. */
  predicate Apart(fs: seq<FileEntry>) {
    forall i, j :: 0 <= i < |fs| && 0 <= j < |fs| && i != j ==> !(fs[i].path <= fs[j].path)
  }

  lemma PrefixesUnderRoot(root: Path, f: Path, g: Path)
    ensures forall k :: 0 <= k <= |root + f| && (root + f)[..k] == root + g ==> g <= f
  {
    forall k | 0 <= k <= |root + f| && (root + f)[..k] == root + g ensures g <= f {
      assert (root + f)[|root|..k] == g;
    }
  }

  lemma StillNoClash(t: Tree, u: Tree, root: Path, f: Path, g: Path)
    requires !Clash(t, root + g) && root + g !in t && !(f <= g) && !(g <= f)
    requires forall q :: q in t ==> q in u && u[q] == t[q]
    requires forall q :: q in u && q !in t && q != root + f ==> u[q].Dir? && |q| < |root + f| && (root + f)[..|q|] == q
    ensures !Clash(u, root + g) && root + g !in u
  {
    var p, r := root + f, root + g;
    PrefixesUnderRoot(root, f, g);
    PrefixesUnderRoot(root, g, f);
    assert p[..|p|] == p;
    assert forall k :: 0 <= k < |r| ==> r[..k] != p;
  }

  ghost predicate Arrived(t: Tree, u: Tree, root: Path, fs: seq<FileEntry>, net: Path -> Fetch) {
    && (forall q :: q in t ==> q in u && u[q] == t[q])
    && (forall e :: e in fs ==> root + e.path in u && net(e.path).Served? && u[root + e.path] == File(net(e.path).data))
    && (forall q :: q in u && q !in t && !u[q].Dir? ==> exists e :: e in fs && q == root + e.path)
  }

  lemma ArrivedCompose(t: Tree, s: Tree, u: Tree, root: Path, fs: seq<FileEntry>, net: Path -> Fetch)
    requires fs != [] && Arrived(t, s, root, [fs[0]], net) && Arrived(s, u, root, fs[1..], net)
    ensures Arrived(t, u, root, fs, net)
  {
    assert fs == [fs[0]] + fs[1..];
    assert fs[0] in [fs[0]];
  }

  lemma OneArrives(t: Tree, s: Tree, root: Path, e: FileEntry, net: Path -> Fetch)
    requires net(e.path).Served? && root + e.path in s && s[root + e.path] == File(net(e.path).data)
    requires forall q :: q in t ==> q in s && s[q] == t[q]
    requires forall q :: q in s && q !in t && q != root + e.path ==> s[q].Dir?
    ensures Arrived(t, s, root, [e], net)
  {
    assert e in [e];
  }

  /** The first download leaves the rest of the list as free of clashes as it was. */
  lemma FirstArrives(t: Tree, root: Path, fs: seq<FileEntry>, net: Path -> Fetch)
    requires FileSystem(t, root) && Apart(fs) && forall e :: e in fs ==> net(e.path).Served? && e.path != []
    requires forall e :: e in fs ==> root + e.path !in t && !Clash(t, root + e.path)
    requires fs != []
    ensures var (s, ok) := Fetched(t, root, fs[0].path, net(fs[0].path), NO_FAULTS);
            && ok && FileSystem(s, root) && Arrived(t, s, root, [fs[0]], net)
            && forall e :: e in fs[1..] ==> e in fs && root + e.path !in s && !Clash(s, root + e.path)
    ensures Apart(fs[1..])
  {
    hide FileSystem, Fetched, Clash, Arrived;
    var f, rest := fs[0].path, fs[1..];
    assert fs[0] in fs && fs[0] in [fs[0]];
    AServedFileArrives(t, root, f, net(f).data);
    var s := Fetched(t, root, f, net(f), NO_FAULTS).0;
    OneArrives(t, s, root, fs[0], net);
    forall i | 0 <= i < |rest|
      ensures rest[i] in fs && root + rest[i].path !in s && !Clash(s, root + rest[i].path)
    {
      assert fs[i + 1] == rest[i];
      StillNoClash(t, s, root, f, rest[i].path);
    }
    forall i, j | 0 <= i < |rest| && 0 <= j < |rest| && i != j ensures !(rest[i].path <= rest[j].path) {
      assert rest[i] == fs[i + 1] && rest[j] == fs[j + 1];
    }
  }

  /** Without clashes every served file arrives. */
  lemma {:induction false} AllArrive(t: Tree, root: Path, fs: seq<FileEntry>, net: Path -> Fetch)
    requires FileSystem(t, root) && Apart(fs) && forall e :: e in fs ==> net(e.path).Served? && e.path != []
    requires forall e :: e in fs ==> root + e.path !in t && !Clash(t, root + e.path)
    ensures var (u, ok) := Downloads(t, root, fs, net, NO_FAULTS);
            ok && FileSystem(u, root) && Arrived(t, u, root, fs, net)
    decreases |fs|
  {
    hide FileSystem, Fetched, Clash, Arrived, Apart;
    if fs != [] {
      FirstArrives(t, root, fs, net);
      var s := Fetched(t, root, fs[0].path, net(fs[0].path), NO_FAULTS).0;
      AllArrive(s, root, fs[1..], net);
      ArrivedCompose(t, s, Downloads(s, root, fs[1..], net, NO_FAULTS).0, root, fs, net);
    } else {
      NoneArrive(t, root, net);
    }
  }

  lemma NoneArrive(t: Tree, root: Path, net: Path -> Fetch)
    ensures Arrived(t, t, root, [], net)
  {
  }

  lemma ClashSurvives(t: Tree, u: Tree, p: Path)
    requires Clash(t, p) && Grows(t, u)
    ensures Clash(u, p)
  {
    if !(p in t && t[p].Dir?) {
      var k :| 0 <= k < |p| && Leaf(t, p[..k]);
      assert Leaf(u, p[..k]);
    }
  }

  lemma {:induction false} AClashStopsTheDownloads(t: Tree, root: Path, fs: seq<FileEntry>, net: Path -> Fetch,
                                                   io: Faults, e: FileEntry)
    requires FileSystem(t, root) && e in fs && Clash(t, root + e.path)
    requires net(e.path).NotOk? ==> exists k :: 0 <= k < |root + e.path| && Leaf(t, (root + e.path)[..k])
    ensures !Downloads(t, root, fs, net, io).1
    decreases |fs|
  {
    hide FileSystem, Fetched, Clash;
    var p := root + e.path;
    var step := Fetched(t, root, fs[0].path, net(fs[0].path), io);
    if fs[0] == e {
      AClashStopsTheDownload(t, root, e.path, net(e.path), io);
    } else if step.1 {
      FetchedKeepsFileSystem(t, root, fs[0].path, net(fs[0].path), io);
      OneDownloadGrows(t, root, fs[0].path, net(fs[0].path), io);
      ClashSurvives(t, step.0, p);
      assert fs == [fs[0]] + fs[1..];
      if k :| 0 <= k < |p| && Leaf(t, p[..k]) {
        assert Leaf(step.0, p[..k]);
      }
      AClashStopsTheDownloads(step.0, root, fs[1..], net, io, e);
    }
  }

  lemma OneDownloadGrows(t: Tree, root: Path, f: Path, reply: Fetch, io: Faults)
    ensures Grows(t, Fetched(t, root, f, reply, io).0)
  {
  }

  /** With every file served, the downloads of a pass all succeed exactly when nothing is in the way of any of them. */
  lemma DownloadsSucceedIff(t: Tree, root: Path, fs: seq<FileEntry>, net: Path -> Fetch)
    requires FileSystem(t, root) && Apart(fs) && forall e :: e in fs ==> net(e.path).Served? && e.path != []
    requires forall e :: e in fs ==> !Leaf(t, root + e.path)
    ensures Downloads(t, root, fs, net, NO_FAULTS).1 <==> forall e :: e in fs ==> !Clash(t, root + e.path)
  {
    if e :| e in fs && Clash(t, root + e.path) {
      AClashStopsTheDownloads(t, root, fs, net, NO_FAULTS, e);
    } else {
      AllArrive(t, root, fs, net);
    }
  }

  // ------------------------------------------------------------------ convergence

  lemma FirstIsElement(fs: seq<FileEntry>)
    ensures fs == [] || fs[0] in fs
  {
  }

  lemma PrefixBelowRoot(root: Path, a: Path, b: Path)
    ensures a <= b ==> |a| <= |b| && (root + b)[..|root + a|] == root + a
  {
  }

  lemma LeavesOfAFileSystem(t: Tree, root: Path)
    requires FileSystem(t, root)
    ensures forall rel :: root + rel in AllLeaves(t, root) <==> Leaf(t, root + rel)
  {
    forall rel | Leaf(t, root + rel) ensures Inside(t, root, root + rel) {
      assert rel == [] ==> root + rel == root;
    }
  }

  /** A full listing of a file system: its paths are the leaves, and none is a prefix of another. */
  lemma FullListing(t: Tree, root: Path, files: seq<FileEntry>)
    requires FileSystem(t, root) && Lists(t, root, files, AllLeaves(t, root))
    ensures forall rel :: rel in Paths(files) <==> Leaf(t, root + rel)
    ensures Unique(files) && Apart(files)
    ensures forall e :: e in files ==> e.path != []
  {
    ListedPaths(t, root, files, AllLeaves(t, root));
    LeavesOfAFileSystem(t, root);
    assert root + [] == root;
    forall i | 0 <= i < |files| ensures Leaf(t, root + files[i].path) && files[i].path != [] {
      assert files[i].path in Paths(files);
    }
    forall i, j | 0 <= i < |files| && 0 <= j < |files| && i != j ensures !(files[i].path <= files[j].path) {
      PrefixBelowRoot(root, files[i].path, files[j].path);
    }
  }

  lemma ApartWithout(files: seq<FileEntry>, others: seq<FileEntry>, ignored: Path -> bool)
    requires Apart(files) && Unique(files)
    ensures Apart(Without(files, others, ignored))
  {
    var kept := Without(files, others, ignored);
    WithoutContents(files, others, ignored);
    WithoutUnique(files, others, ignored);
    forall i, j | 0 <= i < |kept| && 0 <= j < |kept| && i != j ensures !(kept[i].path <= kept[j].path) {
      assert kept[i] in files && kept[j] in files;
      var a, b :| 0 <= a < |files| && files[a] == kept[i] && 0 <= b < |files| && files[b] == kept[j];
      assert a != b by { assert kept[i].path != kept[j].path; }
    }
  }

  /** What the downloads of a converging pass leave. */
  lemma ConvergingDownloads(t: Tree, root: Path, mine: seq<FileEntry>, m: Tree, mroot: Path, files: seq<FileEntry>,
                            ignored: Path -> bool, net: Path -> Fetch)
    requires FileSystem(t, root) && Lists(t, root, mine, AllLeaves(t, root))
    requires FileSystem(m, mroot) && Lists(m, mroot, files, AllLeaves(m, mroot))
    requires forall e :: e in Without(files, mine, ignored) ==> net(e.path).Served? && !Clash(t, root + e.path)
    ensures var (u, ok) := Downloads(t, root, Without(files, mine, ignored), net, NO_FAULTS);
            && ok && FileSystem(u, root) && Arrived(t, u, root, Without(files, mine, ignored), net)
            && forall rel :: Leaf(u, root + rel) <==> Leaf(t, root + rel) || (Leaf(m, mroot + rel) && !ignored(rel))
  {
    hide FileSystem, AllLeaves, Lists, Apart, Downloads;
    FullListing(t, root, mine);
    FullListing(m, mroot, files);
    var missing := Without(files, mine, ignored);
    WithoutContents(files, mine, ignored);
    ApartWithout(files, mine, ignored);
    forall e | e in missing ensures root + e.path !in t && e.path != [] {
      assert Clash(t, root + e.path) || !Leaf(t, root + e.path);
      assert e.path !in Paths(mine);
    }
    AllArrive(t, root, missing, net);
    var u := Downloads(t, root, missing, net, NO_FAULTS).0;
    forall rel ensures Leaf(u, root + rel) <==> Leaf(t, root + rel) || (Leaf(m, mroot + rel) && !ignored(rel)) {
      LeafAfterArrival(t, u, root, mine, m, mroot, files, ignored, net, rel);
    }
  }

  lemma LeafAfterArrival(t: Tree, u: Tree, root: Path, mine: seq<FileEntry>, m: Tree, mroot: Path,
                         files: seq<FileEntry>,
                         ignored: Path -> bool, net: Path -> Fetch, rel: Path)
    requires Arrived(t, u, root, Without(files, mine, ignored), net)
    requires rel in Paths(files) <==> Leaf(m, mroot + rel)
    requires rel in Paths(mine) <==> Leaf(t, root + rel)
    ensures Leaf(u, root + rel) <==> Leaf(t, root + rel) || (Leaf(m, mroot + rel) && !ignored(rel))
  {
    var missing := Without(files, mine, ignored);
    WithoutContents(files, mine, ignored);
    if Leaf(m, mroot + rel) && !ignored(rel) && !Leaf(t, root + rel) {
      var i :| 0 <= i < |files| && files[i].path == rel;
      assert files[i] in missing;
    }
    if Leaf(u, root + rel) && root + rel !in t {
      var e :| e in missing && root + rel == root + e.path;
      assert e.path == (root + rel)[|root|..] == rel;
      var i :| 0 <= i < |files| && files[i] == e;
      assert rel in Paths(files);
    }
  }

  ghost predicate InSync(t: Tree, root: Path, m: Tree, mroot: Path, ignored: Path -> bool) {
    forall rel :: !ignored(rel) ==> (Leaf(t, root + rel) <==> Leaf(m, mroot + rel))
  }

  /**
   * With complete listings on both sides, every fetch served, whatever the body, and nothing in the
   * way, a pass leaves the replica with exactly the master's unignored leaves: new ones hold what
   * was served, the ones it had are untouched, and so are the ignored ones.
   */
  lemma APassOfServedFiles(t: Tree, root: Path, mine: seq<FileEntry>, m: Tree, mroot: Path, resp: Response,
                           ignored: Path -> bool, net: Path -> Fetch)
    requires FileSystem(t, root) && Lists(t, root, mine, AllLeaves(t, root))
    requires FileSystem(m, mroot) && resp.Files? && Lists(m, mroot, resp.files, AllLeaves(m, mroot))
    requires resp.header != Some("0")
    requires forall e :: e in Without(resp.files, mine, ignored) ==> !Clash(t, root + e.path) && net(e.path).Served?
    ensures Downloads(t, root, Without(resp.files, mine, ignored), net, NO_FAULTS).1
    ensures var u := Pass(t, root, mine, resp, ignored, net, NO_FAULTS);
            && FileSystem(u, root) && InSync(u, root, m, mroot, ignored)
            && (forall rel :: ignored(rel) ==> (Leaf(u, root + rel) <==> Leaf(t, root + rel)))
            && (forall rel :: Leaf(u, root + rel) && Leaf(t, root + rel) ==> u[root + rel] == t[root + rel])
            && (forall rel :: Leaf(u, root + rel) && !Leaf(t, root + rel) ==>
                  exists e :: e in Without(resp.files, mine, ignored) && e.path == rel)
            && (forall e :: e in Without(resp.files, mine, ignored) ==>
                  root + e.path in u && u[root + e.path] == File(net(e.path).data))
            && (forall q :: q in u && u[q].Link? ==> q in t && t[q] == u[q])
  {
    hide FileSystem, AllLeaves, Lists, Apart, Downloads, Deletions, Clash;
    ConvergingDownloads(t, root, mine, m, mroot, resp.files, ignored, net);
    FullListing(t, root, mine);
    FullListing(m, mroot, resp.files);
    var missing, doomed := Without(resp.files, mine, ignored), Without(mine, resp.files, ignored);
    var u := Downloads(t, root, missing, net, NO_FAULTS).0;
    var v := Deletions(u, root, doomed, NO_FAULTS).0;
    DeletionsKeepFileSystem(u, root, doomed, NO_FAULTS);
    forall i | 0 <= i < |mine| ensures Leaf(t, root + mine[i].path) {
      assert mine[i].path in Paths(mine);
    }
    forall q | q in v ensures q in u && v[q] == u[q] {
      DeletionsOnlyUnlink(u, root, doomed, NO_FAULTS);
    }
    forall rel | Leaf(t, root + rel) ensures root + rel !in v <==> !Leaf(m, mroot + rel) && !ignored(rel) {
      WhatAFaultlessPassUnlinks(t, root, mine, resp, ignored, net, NO_FAULTS, rel);
    }
    forall rel | Leaf(u, root + rel) && !Leaf(t, root + rel)
      ensures root + rel in v && exists e :: e in missing && e.path == rel
    {
      NewLeafWasMissing(t, u, root, missing, net, rel);
      NewLeafSurvives(t, u, root, mine, resp.files, ignored, rel);
    }
    forall e | e in missing ensures root + e.path in v && v[root + e.path] == File(net(e.path).data) {
      WithoutContents(resp.files, mine, ignored);
      assert !Leaf(t, root + e.path) && Leaf(u, root + e.path);
    }
  }

  /** If moreover every body is the master's, the replica's new files hold the master's bytes. */
  lemma APassConverges(t: Tree, root: Path, mine: seq<FileEntry>, m: Tree, mroot: Path, resp: Response,
                       ignored: Path -> bool, net: Path -> Fetch)
    requires FileSystem(t, root) && Lists(t, root, mine, AllLeaves(t, root))
    requires FileSystem(m, mroot) && resp.Files? && Lists(m, mroot, resp.files, AllLeaves(m, mroot))
    requires resp.header != Some("0")
    requires forall e :: e in Without(resp.files, mine, ignored) ==>
               && !Clash(t, root + e.path) && Read(m, mroot + e.path).Some?
               && net(e.path) == Served(Read(m, mroot + e.path).value)
    ensures var u := Pass(t, root, mine, resp, ignored, net, NO_FAULTS);
            && FileSystem(u, root) && InSync(u, root, m, mroot, ignored)
            && (forall rel :: ignored(rel) ==> (Leaf(u, root + rel) <==> Leaf(t, root + rel)))
            && (forall rel :: Leaf(u, root + rel) && Leaf(t, root + rel) ==> u[root + rel] == t[root + rel])
            && (forall rel :: Leaf(u, root + rel) && !Leaf(t, root + rel) ==>
                  Read(m, mroot + rel).Some? && u[root + rel] == File(Read(m, mroot + rel).value))
  {
    hide FileSystem, AllLeaves, Lists, Pass, Without, InSync, Clash;
    APassOfServedFiles(t, root, mine, m, mroot, resp, ignored, net);
  }

  lemma DeletionsKeepFileSystem(t: Tree, root: Path, fs: seq<FileEntry>, io: Faults)
    requires FileSystem(t, root)
    ensures FileSystem(Deletions(t, root, fs, io).0, root)
  {
    hide Deletions;
    DeletionsOnlyUnlink(t, root, fs, io);
  }

  lemma NewLeafWasMissing(t: Tree, u: Tree, root: Path, missing: seq<FileEntry>, net: Path -> Fetch, rel: Path)
    requires Arrived(t, u, root, missing, net) && Leaf(u, root + rel) && !Leaf(t, root + rel)
    ensures exists e :: e in missing && e.path == rel
  {
    var e :| e in missing && root + rel == root + e.path;
    assert e.path == (root + rel)[|root|..] == rel;
  }

  lemma NewLeafSurvives(t: Tree, u: Tree, root: Path, mine: seq<FileEntry>, files: seq<FileEntry>,
                        ignored: Path -> bool, rel: Path)
    requires Leaf(u, root + rel) && !Leaf(t, root + rel)
    requires forall r :: r in Paths(mine) ==> Leaf(t, root + r)
    ensures root + rel in Deletions(u, root, Without(mine, files, ignored), NO_FAULTS).0
  {
    var doomed := Without(mine, files, ignored);
    DeletionsOnlyUnlink(u, root, doomed, NO_FAULTS);
    WithoutContents(mine, files, ignored);
    forall r | r in Paths(doomed) ensures r in Paths(mine) {
      var i :| 0 <= i < |doomed| && doomed[i].path == r;
      assert doomed[i] in mine;
    }
  }

  /**
   * Once in sync, a pass against any master with the same leaves (the same tree, or one that was
   * only tiered since) downloads and deletes nothing, whatever the network would do.
   */
  lemma ASecondPassIsIdle(t: Tree, root: Path, mine: seq<FileEntry>, m: Tree, mroot: Path, resp: Response,
                          ignored: Path -> bool, net: Path -> Fetch, io: Faults)
    requires FileSystem(t, root) && Lists(t, root, mine, AllLeaves(t, root))
    requires FileSystem(m, mroot) && resp.Files? && Lists(m, mroot, resp.files, AllLeaves(m, mroot))
    requires InSync(t, root, m, mroot, ignored)
    ensures Without(resp.files, mine, ignored) == [] && Without(mine, resp.files, ignored) == []
    ensures Pass(t, root, mine, resp, ignored, net, io) == t
  {
    hide FileSystem, AllLeaves, Lists, Apart, Leaf;
    FullListing(t, root, mine);
    FullListing(m, mroot, resp.files);
    WithoutContents(resp.files, mine, ignored);
    WithoutContents(mine, resp.files, ignored);
    FirstIsElement(Without(resp.files, mine, ignored));
    FirstIsElement(Without(mine, resp.files, ignored));
  }

  /** A body that breaks off, or a lost connection, abandons the downloads, whatever else is on the list. */
  lemma {:induction false} ABrokenBodyStopsTheDownloads(t: Tree, root: Path, fs: seq<FileEntry>, net: Path -> Fetch,
                                                        io: Faults,
                                                        e: FileEntry)
    requires e in fs && (net(e.path).CutOff? || net(e.path).Unreachable?)
    ensures !Downloads(t, root, fs, net, io).1
    decreases |fs|
  {
    var step := Fetched(t, root, fs[0].path, net(fs[0].path), io);
    if fs[0] != e && step.1 {
      assert fs == [fs[0]] + fs[1..];
      ABrokenBodyStopsTheDownloads(step.0, root, fs[1..], net, io, e);
    }
  }

  // ------------------------------------------------------------------ what never heals

  lemma {:induction false} DownloadsKeepFileSystem(t: Tree, root: Path, fs: seq<FileEntry>, net: Path -> Fetch,
                                                   io: Faults)
    requires FileSystem(t, root)
    ensures FileSystem(Downloads(t, root, fs, net, io).0, root)
    decreases |fs|
  {
    hide FileSystem, Fetched;
    if fs != [] {
      FetchedKeepsFileSystem(t, root, fs[0].path, net(fs[0].path), io);
      DownloadsKeepFileSystem(Fetched(t, root, fs[0].path, net(fs[0].path), io).0, root, fs[1..], net, io);
    }
  }

  /** Each turn's own listing has only leaves of the tree at that time. */
  ghost predicate Truthful(t: Tree, root: Path, ignored: Path -> bool, turns: seq<Turn>)
    decreases |turns|
  {
    turns == [] ||
    (&& (forall rel :: rel in Paths(turns[0].mine) ==> Leaf(t, root + rel))
     && Truthful(Pass(t, root, turns[0].mine, turns[0].resp, ignored, turns[0].net, turns[0].io), root, ignored,
         turns[1..]))
  }

  /** A leaf where the master has a directory: the pass is abandoned there, before any deletion. */
  lemma ALeafInTheWayStopsThePass(t: Tree, root: Path, mine: seq<FileEntry>, resp: Response, ignored: Path -> bool,
                                  net: Path -> Fetch, io: Faults, rel: Path, f: Path)
    requires FileSystem(t, root) && Leaf(t, root + rel) && rel < f && !ignored(f)
    requires resp.Failed? || f in Paths(resp.files)
    requires forall r :: r in Paths(mine) ==> Leaf(t, root + r)
    ensures var u := Pass(t, root, mine, resp, ignored, net, io); FileSystem(u, root) && Grows(t, u)
  {
    if resp.Files? {
      var p := root + f;
      assert p[..|root + rel|] == root + rel;
      var i :| 0 <= i < |resp.files| && resp.files[i].path == f;
      var missing := Without(resp.files, mine, ignored);
      WithoutContents(resp.files, mine, ignored);
      NothingBelowALeaf(t, root, p, |root + rel|, false);
      assert resp.files[i] in missing;
      AClashStopsTheDownloads(t, root, missing, net, io, resp.files[i]);
      DownloadsKeepFileSystem(t, root, missing, net, io);
      DownloadsGrow(t, root, missing, net, io);
    }
  }

  /**
   * A replica's file that became a directory on the master blocks every later pass: it stays, the
   * file below it never arrives, and nothing is ever deleted again.
   */
  lemma {:induction false} ALeafInTheWayBlocksForever(t: Tree, root: Path, ignored: Path -> bool, turns: seq<Turn>,
                                                      rel: Path, f: Path)
    requires FileSystem(t, root) && Leaf(t, root + rel) && rel < f && !ignored(f)
    requires forall i :: 0 <= i < |turns| ==> turns[i].resp.Failed? || f in Paths(turns[i].resp.files)
    requires Truthful(t, root, ignored, turns)
    ensures var u := Run(t, root, ignored, turns); Grows(t, u) && root + f !in u
    decreases |turns|
  {
    hide FileSystem, Pass;
    assert (root + f)[..|root + rel|] == root + rel;
    if turns == [] {
      NothingBelowALeaf(t, root, root + f, |root + rel|, false);
    } else {
      var a, rest := turns[0], turns[1..];
      ALeafInTheWayStopsThePass(t, root, a.mine, a.resp, ignored, a.net, a.io, rel, f);
      assert forall i :: 0 <= i < |rest| ==> rest[i] == turns[i + 1];
      ALeafInTheWayBlocksForever(Pass(t, root, a.mine, a.resp, ignored, a.net, a.io), root, ignored, rest, rel, f);
    }
  }

  /** No pass removes a directory, so a directory where the master has a file is never replaced by it. */
  lemma {:induction false} ADirectoryInTheWayStays(t: Tree, root: Path, ignored: Path -> bool, turns: seq<Turn>,
                                                   p: Path)
    requires p in t && t[p].Dir?
    ensures var u := Run(t, root, ignored, turns); p in u && u[p].Dir?
    decreases |turns|
  {
    hide Pass;
    if turns != [] {
      var a := turns[0];
      var u := Pass(t, root, a.mine, a.resp, ignored, a.net, a.io);
      if p !in u {
        APassUnlinksOnlySurplus(t, root, a.mine, a.resp, ignored, a.net, a.io, p);
      }
      APassKeepsTheRest(t, root, a.mine, a.resp, ignored, a.net, a.io, p);
      ADirectoryInTheWayStays(u, root, ignored, turns[1..], p);
    }
  }

  /** `p` is a plain file that no link leads to. */
  ghost predicate PlainFile(t: Tree, p: Path, data: Bytes) {
    p in t && t[p] == File(data) && forall q :: q in t ==> t[q] != Link(p)
  }

  lemma {:induction false} DownloadsSpareTheRest(t: Tree, root: Path, fs: seq<FileEntry>, net: Path -> Fetch,
                                                 io: Faults,
                                                 p: Path, data: Bytes)
    requires PlainFile(t, p, data) && forall e :: e in fs ==> root + e.path != p
    ensures PlainFile(Downloads(t, root, fs, net, io).0, p, data)
    decreases |fs|
  {
    if fs != [] {
      assert fs[0] in fs;
      var step := Fetched(t, root, fs[0].path, net(fs[0].path), io);
      assert PlainFile(step.0, p, data);
      if step.1 {
        DownloadsSpareTheRest(step.0, root, fs[1..], net, io, p, data);
      }
    }
  }

  /**
   * Presence is judged by path alone: a file a cut-off download left short keeps those bytes for as
   * long as both sides list it, whatever its size and whatever the network would now serve.
   */
  lemma {:induction false} AShortFileIsNeverRepaired(t: Tree, root: Path, ignored: Path -> bool, turns: seq<Turn>,
                                                     rel: Path, data: Bytes)
    requires PlainFile(t, root + rel, data)
    requires forall i :: 0 <= i < |turns| ==>
               rel in Paths(turns[i].mine) && (turns[i].resp.Failed? || rel in Paths(turns[i].resp.files))
    ensures PlainFile(Run(t, root, ignored, turns), root + rel, data)
    decreases |turns|
  {
    hide Pass;
    if turns != [] {
      var a, rest := turns[0], turns[1..];
      AShortFileSurvivesAPass(t, root, a.mine, a.resp, ignored, a.net, a.io, rel, data);
      assert forall i :: 0 <= i < |rest| ==> rest[i] == turns[i + 1];
      AShortFileIsNeverRepaired(Pass(t, root, a.mine, a.resp, ignored, a.net, a.io), root, ignored, rest, rel, data);
    }
  }

  lemma AShortFileSurvivesAPass(t: Tree, root: Path, mine: seq<FileEntry>, resp: Response, ignored: Path -> bool,
                                net: Path -> Fetch, io: Faults, rel: Path, data: Bytes)
    requires PlainFile(t, root + rel, data) && rel in Paths(mine) && (resp.Failed? || rel in Paths(resp.files))
    ensures PlainFile(Pass(t, root, mine, resp, ignored, net, io), root + rel, data)
  {
    if resp.Files? {
      var missing, doomed := Without(resp.files, mine, ignored), Doomed(mine, resp, ignored);
      WithoutContents(resp.files, mine, ignored);
      forall e | e in missing ensures root + e.path != root + rel {
        assert (root + e.path)[|root|..] == e.path && (root + rel)[|root|..] == rel;
      }
      DownloadsSpareTheRest(t, root, missing, net, io, root + rel, data);
      DeletionsOnlyUnlink(Downloads(t, root, missing, net, io).0, root, doomed, io);
      if root + rel !in Pass(t, root, mine, resp, ignored, net, io) {
        AnUnlinkedPathIsSurplus(t, root, mine, resp, ignored, net, io, rel);
      }
    }
  }
}
