/** What a replica can lose, what it converges to, and what never heals. */
module SyncLaws {
  import opened Options
  import opened FileTree
  import opened Listing
  import opened ListingLaws
  import opened Sync

  predicate Leaf(t: Tree, p: Path) {
    p in t && !t[p].Dir?
  }

  // ------------------------------------------------------------------ the two filters

  lemma {:induction false} WithoutContents(files: seq<FileEntry>, others: seq<FileEntry>, ignored: Path -> bool)
    ensures forall e :: e in Without(files, others, ignored) <==>
                        e in files && e.path !in Paths(others) && !ignored(e.path)
  {
    if files != [] {
      WithoutContents(files[1..], others, ignored);
      assert files == [files[0]] + files[1..];
    }
  }

  predicate Unique(files: seq<FileEntry>) {
    forall i, j :: 0 <= i < j < |files| ==> files[i].path != files[j].path
  }

  lemma {:induction false} WithoutUnique(files: seq<FileEntry>, others: seq<FileEntry>, ignored: Path -> bool)
    requires Unique(files)
    ensures Unique(Without(files, others, ignored))
  {
    if files != [] {
      WithoutUnique(files[1..], others, ignored);
      WithoutContents(files[1..], others, ignored);
      forall e | e in files[1..] ensures e.path != files[0].path {
        var i :| 0 <= i < |files[1..]| && files[1..][i] == e;
        assert files[1 + i] == e;
      }
    }
  }

  lemma ListedPaths(t: Tree, root: Path, files: seq<FileEntry>, ps: set<Path>)
    requires Lists(t, root, files, ps)
    ensures forall rel :: rel in Paths(files) <==> root + rel in ps
    ensures Unique(files)
  {
    forall rel | root + rel in ps ensures rel in Paths(files) {
      var i :| 0 <= i < |files| && root + files[i].path == root + rel;
      assert files[i].path == (root + rel)[|root|..] == rel;
    }
  }

  // ------------------------------------------------------------------ what a pass can remove

  /** Nothing disappears, and leaves and directories stay what they are. */
  ghost predicate Grows(t: Tree, u: Tree) {
    forall q :: q in t ==> q in u && (t[q].Dir? <==> u[q].Dir?)
  }

  lemma {:induction false} DownloadsGrow(t: Tree, root: Path, fs: seq<FileEntry>, net: Path -> Fetch, io: Faults)
    ensures Grows(t, Downloads(t, root, fs, net, io).0)
    decreases |fs|
  {
    if fs != [] {
      var step := Fetched(t, root, fs[0].path, net(fs[0].path), io);
      assert Grows(t, step.0);
      if step.1 {
        DownloadsGrow(step.0, root, fs[1..], net, io);
      }
    }
  }

  lemma {:induction false} DeletionsOnlyUnlink(t: Tree, root: Path, fs: seq<FileEntry>, io: Faults)
    ensures var u := Deletions(t, root, fs, io).0;
            forall q :: (q in u ==> q in t && u[q] == t[q])
              && (q in t && q !in u ==> !t[q].Dir? && exists rel :: rel in Paths(fs) && q == root + rel)
    decreases |fs|
  {
    if fs != [] {
      var p := root + fs[0].path;
      var step := Unlinked(t, p, p in io.unlink);
      assert fs[0].path in Paths(fs);
      if step.1 {
        DeletionsOnlyUnlink(step.0, root, fs[1..], io);
        assert forall rel :: rel in Paths(fs[1..]) ==> rel in Paths(fs) by {
          forall rel | rel in Paths(fs[1..]) ensures rel in Paths(fs) {
            var i :| 0 <= i < |fs[1..]| && fs[1..][i].path == rel;
            assert fs[1 + i].path == rel;
          }
        }
      }
    }
  }

  /**
   * Whatever a pass unlinks was a listed leaf that the answer lacked, not ignored, and the answer
   * claimed to be complete.
   */
  lemma APassUnlinksOnlySurplus(t: Tree, root: Path, mine: seq<FileEntry>, resp: Response, ignored: Path -> bool,
                                net: Path -> Fetch, io: Faults, q: Path)
    requires q in t && q !in Pass(t, root, mine, resp, ignored, net, io)
    ensures resp.Files? && resp.header != Some("0") && !t[q].Dir?
    ensures exists rel :: q == root + rel && rel in Paths(mine) && rel !in Paths(resp.files) && !ignored(rel)
  {
    var fetched := Downloads(t, root, Without(resp.files, mine, ignored), net, io);
    DownloadsGrow(t, root, Without(resp.files, mine, ignored), net, io);
    var doomed := Doomed(mine, resp, ignored);
    DeletionsOnlyUnlink(fetched.0, root, doomed, io);
    var rel :| rel in Paths(doomed) && q == root + rel;
    WithoutContents(mine, resp.files, ignored);
    var i :| 0 <= i < |doomed| && doomed[i].path == rel;
    assert doomed[i] in doomed;
    var j :| 0 <= j < |mine| && mine[j] == doomed[i];
  }

  lemma AnUnlinkedPathIsSurplus(t: Tree, root: Path, mine: seq<FileEntry>, resp: Response, ignored: Path -> bool,
                                net: Path -> Fetch, io: Faults, rel: Path)
    requires root + rel in t && root + rel !in Pass(t, root, mine, resp, ignored, net, io)
    ensures resp.Files? && resp.header != Some("0")
    ensures rel in Paths(mine) && rel !in Paths(resp.files) && !ignored(rel)
  {
    APassUnlinksOnlySurplus(t, root, mine, resp, ignored, net, io, root + rel);
    var r :| root + rel == root + r && r in Paths(mine) && r !in Paths(resp.files) && !ignored(r);
    assert r == (root + rel)[|root|..] == rel;
  }

  lemma APassKeepsTheRest(t: Tree, root: Path, mine: seq<FileEntry>, resp: Response, ignored: Path -> bool,
                          net: Path -> Fetch, io: Faults, q: Path)
    requires q in t && q in Pass(t, root, mine, resp, ignored, net, io)
    ensures t[q].Dir? <==> Pass(t, root, mine, resp, ignored, net, io)[q].Dir?
  {
    if resp.Files? {
      DownloadsGrow(t, root, Without(resp.files, mine, ignored), net, io);
      DeletionsOnlyUnlink(Downloads(t, root, Without(resp.files, mine, ignored), net, io).0, root,
                          Doomed(mine, resp, ignored), io);
    }
  }

  /** A master's own answer: its listing, and the header the controller sets. */
  ghost predicate Answers(m: Tree, mroot: Path, msys: Syscalls, resp: Response) {
    && resp.Files?
    && Lists(m, mroot, resp.files, Listed(m, mroot, msys))
    && (Clean(m, mroot, msys) ==> resp.header == Some("1"))
    && (!Clean(m, mroot, msys) ==> resp.header == Some("0"))
  }

  /** With the header, no pass unlinks a path that exists on the master at listing time, or an ignored one. */
  lemma WhatTheMasterHasIsKept(t: Tree, root: Path, mine: seq<FileEntry>, resp: Response, ignored: Path -> bool,
                               net: Path -> Fetch, io: Faults, m: Tree, mroot: Path, msys: Syscalls, rel: Path)
    requires Answers(m, mroot, msys, resp) || resp.Failed?
    requires mroot + rel in AllLeaves(m, mroot) || ignored(rel)
    requires Leaf(t, root + rel)
    ensures Leaf(Pass(t, root, mine, resp, ignored, net, io), root + rel)
  {
    var q := root + rel;
    if q !in Pass(t, root, mine, resp, ignored, net, io) {
      AnUnlinkedPathIsSurplus(t, root, mine, resp, ignored, net, io, rel);
      CompleteListingHasEveryLeaf(m, mroot, msys);
      ListedPaths(m, mroot, resp.files, Listed(m, mroot, msys));
      assert false;
    }
    APassKeepsTheRest(t, root, mine, resp, ignored, net, io, q);
  }

  /** The first unlink that fails ends the deletions: what was to go after it stays. */
  lemma {:induction false} AFailedUnlinkEndsTheDeletions(t: Tree, root: Path, fs: seq<FileEntry>, io: Faults, i: nat,
                                                         j: nat)
    requires Unique(fs) && i <= j < |fs| && root + fs[i].path in io.unlink
    ensures !Deletions(t, root, fs, io).1
    ensures root + fs[j].path in t ==> root + fs[j].path in Deletions(t, root, fs, io).0
    decreases |fs|
  {
    var p := root + fs[0].path;
    var step := Unlinked(t, p, p in io.unlink);
    if step.1 {
      var rest := fs[1..];
      assert forall k :: 0 <= k < |rest| ==> rest[k] == fs[k + 1];
      assert i > 0;
      assert (root + fs[j].path)[|root|..] == fs[j].path && p[|root|..] == fs[0].path;
      AFailedUnlinkEndsTheDeletions(step.0, root, rest, io, i - 1, j - 1);
    }
  }

  // ------------------------------------------------------------------ whole runs

  /** One pass with everything around it: the master at that moment, the walk's faults and the network. */
  datatype Turn = Turn(master: Tree, msys: Syscalls, mine: seq<FileEntry>, resp: Response, net: Path -> Fetch,
                       io: Faults)

  function Run(t: Tree, root: Path, ignored: Path -> bool, turns: seq<Turn>): Tree
    decreases |turns|
  {
    if turns == [] then t
    else Run(Pass(t, root, turns[0].mine, turns[0].resp, ignored, turns[0].net, turns[0].io), root, ignored, turns[1..])
  }

  /**
   * Over any number of passes, with drives unmounted, entries unresolvable and downloads failing
   * at will: a leaf that is on the master at every listing, or ignored, is never lost.
   */
  lemma {:induction false} NothingOnTheMasterIsEverLost(t: Tree, root: Path, ignored: Path -> bool, turns: seq<Turn>,
                                                        mroot: Path, rel: Path)
    requires forall i :: 0 <= i < |turns| ==>
               Answers(turns[i].master, mroot, turns[i].msys, turns[i].resp) || turns[i].resp.Failed?
    requires ignored(rel) || forall i :: 0 <= i < |turns| ==> mroot + rel in AllLeaves(turns[i].master, mroot)
    requires Leaf(t, root + rel)
    ensures Leaf(Run(t, root, ignored, turns), root + rel)
    decreases |turns|
  {
    hide Pass, Answers, AllLeaves, Leaf;
    if turns != [] {
      var a := turns[0];
      WhatTheMasterHasIsKept(t, root, a.mine, a.resp, ignored, a.net, a.io, a.master, mroot, a.msys, rel);
      var rest := turns[1..];
      assert forall i :: 0 <= i < |rest| ==> rest[i] == turns[i + 1];
      NothingOnTheMasterIsEverLost(Pass(t, root, a.mine, a.resp, ignored, a.net, a.io), root, ignored, rest, mroot,
          rel);
    }
  }

  // ------------------------------------------------------------------ without the header

  lemma {:induction false} DeletionsFinish(t: Tree, root: Path, fs: seq<FileEntry>, io: Faults)
    requires io.unlink == {} && Unique(fs)
    requires forall i :: 0 <= i < |fs| ==> Leaf(t, root + fs[i].path)
    ensures Deletions(t, root, fs, io).1
    ensures forall rel :: rel in Paths(fs) ==> root + rel !in Deletions(t, root, fs, io).0
    decreases |fs|
  {
    if fs != [] {
      var step := Unlinked(t, root + fs[0].path, false);
      var rest := fs[1..];
      forall i | 0 <= i < |rest| ensures Leaf(step.0, root + rest[i].path) {
        assert rest[i] == fs[i + 1];
        assert (root + fs[i + 1].path)[|root|..] == fs[i + 1].path && (root + fs[0].path)[|root|..] == fs[0].path;
      }
      DeletionsFinish(step.0, root, rest, io);
      DeletionsOnlyUnlink(step.0, root, rest, io);
      forall rel | rel in Paths(fs) ensures root + rel !in Deletions(t, root, fs, io).0 {
        var i :| 0 <= i < |fs| && fs[i].path == rel;
        if i > 0 {
          assert rest[i - 1] == fs[i];
          assert rel in Paths(rest);
        }
      }
    }
  }

  /**
   * A pass whose downloads and unlinks succeed removes exactly the listed, unignored paths that a
   * listing without the "incomplete" header lacks, whatever the reason they are not in it.
   */
  lemma WhatAFaultlessPassUnlinks(t: Tree, root: Path, mine: seq<FileEntry>, resp: Response, ignored: Path -> bool,
                                  net: Path -> Fetch, io: Faults, rel: Path)
    requires resp.Files? && io.unlink == {} && Unique(mine) && forall i :: 0 <= i < |mine| ==>
             Leaf(t, root + mine[i].path)
    requires Downloads(t, root, Without(resp.files, mine, ignored), net, io).1
    requires Leaf(t, root + rel)
    ensures root + rel !in Pass(t, root, mine, resp, ignored, net, io) <==>
            resp.header != Some("0") && rel in Paths(mine) && rel !in Paths(resp.files) && !ignored(rel)
  {
    var u := Downloads(t, root, Without(resp.files, mine, ignored), net, io).0;
    DownloadsGrow(t, root, Without(resp.files, mine, ignored), net, io);
    if resp.header != Some("0") && rel in Paths(mine) && rel !in Paths(resp.files) && !ignored(rel) {
      var doomed := Without(mine, resp.files, ignored);
      WithoutContents(mine, resp.files, ignored);
      WithoutUnique(mine, resp.files, ignored);
      forall i | 0 <= i < |doomed| ensures Leaf(u, root + doomed[i].path) {
        assert doomed[i] in mine;
      }
      DeletionsFinish(u, root, doomed, io);
      var j :| 0 <= j < |mine| && mine[j].path == rel;
      assert mine[j] in doomed;
      var i :| 0 <= i < |doomed| && doomed[i] == mine[j];
      assert rel in Paths(doomed);
    }
    if root + rel !in Pass(t, root, mine, resp, ignored, net, io) {
      AnUnlinkedPathIsSurplus(t, root, mine, resp, ignored, net, io, rel);
    }
  }

  /**
   * From a master that sends no header, such a pass spares everything the master has exactly when
   * every listed, unignored path the master has is also in its listing.
   */
  lemma SafeWithoutTheHeaderIff(t: Tree, root: Path, mine: seq<FileEntry>, resp: Response, ignored: Path -> bool,
                                net: Path -> Fetch, io: Faults, m: Tree, mroot: Path, msys: Syscalls)
    requires resp.Files? && resp.header == None && Lists(m, mroot, resp.files, Listed(m, mroot, msys))
    requires io.unlink == {} && Unique(mine) && forall i :: 0 <= i < |mine| ==> Leaf(t, root + mine[i].path)
    requires Downloads(t, root, Without(resp.files, mine, ignored), net, io).1
    ensures (forall rel :: mroot + rel in AllLeaves(m, mroot) && Leaf(t, root + rel) ==>
                           root + rel in Pass(t, root, mine, resp, ignored, net, io))
       <==> (forall rel :: mroot + rel in AllLeaves(m, mroot) && rel in Paths(mine) && !ignored(rel) ==>
                           mroot + rel in Listed(m, mroot, msys))
  {
    hide Pass, AllLeaves, Lists, Listed;
    ListedPaths(m, mroot, resp.files, Listed(m, mroot, msys));
    forall rel | Leaf(t, root + rel)
      ensures root + rel !in Pass(t, root, mine, resp, ignored, net, io) <==>
              rel in Paths(mine) && mroot + rel !in Listed(m, mroot, msys) && !ignored(rel)
    {
      WhatAFaultlessPassUnlinks(t, root, mine, resp, ignored, net, io, rel);
    }
    forall rel | rel in Paths(mine) ensures Leaf(t, root + rel) {
    }
  }
}
