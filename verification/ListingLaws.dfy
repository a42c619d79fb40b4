/** What a complete listing means, and why tiering does not show in it. */
module ListingLaws {
  import opened Options
  import opened Octets
  import opened FileTree
  import opened TieredStorage
  import opened Evacuation
  import opened Listing

  /** Every file and link below `dir` that real directories lead to. */
  function AllLeaves(t: Tree, dir: Path): set<Path> {
    set p | p in t && !t[p].Dir? && Inside(t, dir, p)
  }

  /** A clean walk misses nothing: whatever is inside was seen. */
  lemma {:induction false} CleanSeesEverything(t: Tree, dir: Path, sys: Syscalls, p: Path, k: nat)
    requires Clean(t, dir, sys) && Inside(t, dir, p) && |dir| <= k < |p|
    ensures p[..k] !in sys.readdirFails && (k > |dir| ==> !Unclassified(sys, p[..k]))
    ensures k > |dir| ==> Seen(t, dir, sys, p[..k])
    decreases k
  {
    assert p[..|dir|] == dir;
    if k > |dir| {
      var q := p[..k];
      forall j | |dir| <= j < k
        ensures q[..j] == p[..j] && q[..j] !in sys.readdirFails && (j > |dir| ==> !Unclassified(sys, q[..j]))
      {
        assert q[..j] == p[..j];
        CleanSeesEverything(t, dir, sys, p, j);
      }
      assert q[..|dir|] == dir;
      assert Seen(t, dir, sys, q) && !Trouble(t, sys, q);
    }
  }

  /** A complete listing is exactly the leaves reachable through real directories, and each resolves to a file. */
  lemma CompleteListingHasEveryLeaf(t: Tree, dir: Path, sys: Syscalls)
    requires Clean(t, dir, sys)
    ensures Listed(t, dir, sys) == AllLeaves(t, dir)
    ensures forall p :: p in AllLeaves(t, dir) ==> Read(t, p).Some?
  {
    forall p | p in AllLeaves(t, dir) ensures p in Listed(t, dir, sys) && Read(t, p).Some? {
      forall k | |dir| <= k < |p| ensures p[..k] !in sys.readdirFails && (k > |dir| ==> !Unclassified(sys, p[..k])) {
        CleanSeesEverything(t, dir, sys, p, k);
      }
      assert Seen(t, dir, sys, p) && !Trouble(t, sys, p);
    }
  }

  /** listCloudDirDetailed(): the completeness bit is trustworthy. */
  method ListCloudDirDetailed(t: Tree, root: Path, sys: Syscalls) returns (files: seq<FileEntry>, complete: bool)
    ensures complete <==> Clean(t, root, sys)
    ensures complete ==> Lists(t, root, files, AllLeaves(t, root))
    ensures Lists(t, root, files, Listed(t, root, sys)) && Listed(t, root, sys) <= AllLeaves(t, root)
  {
    var skipped;
    files, skipped := ListRecursively(t, root, root, sys);
    complete := skipped == 0;
    if complete {
      CompleteListingHasEveryLeaf(t, root, sys);
    }
  }

  // ------------------------------------------------------------------ tiering and the listing

  /** Two trees a walk of `root` cannot tell apart, except by what does not resolve. */
  ghost predicate SameToAWalk(t: Tree, u: Tree, root: Path) {
    && (root in t && t[root].Dir? <==> root in u && u[root].Dir?)
    && forall q :: Under(root, q) ==> SameEntry(t, u, q)
  }

  ghost predicate SameEntry(t: Tree, u: Tree, q: Path) {
    && (q in t <==> q in u)
    && (q in t ==> (t[q].Dir? <==> u[q].Dir?) && (Read(t, q).Some? ==> Read(u, q) == Read(t, q)))
  }

  lemma SameLeaves(t: Tree, u: Tree, root: Path)
    requires SameToAWalk(t, u, root)
    ensures AllLeaves(t, root) == AllLeaves(u, root)
  {
    forall p ensures p in AllLeaves(t, root) <==> p in AllLeaves(u, root) {
      if Under(root, p) {
        forall k | |root| <= k < |p|
          ensures (p[..k] in t && t[p[..k]].Dir?) <==> (p[..k] in u && u[p[..k]].Dir?)
        {
          var d := p[..k];
          if k > |root| {
            assert d[..|root|] == root && Under(root, d) && SameEntry(t, u, d);
          } else {
            assert d == root;
          }
        }
      }
    }
  }

  lemma EntryFromOtherTree(t: Tree, u: Tree, root: Path, files: seq<FileEntry>, others: seq<FileEntry>, i: nat)
    requires Lists(t, root, files, AllLeaves(t, root)) && Lists(u, root, others, AllLeaves(u, root))
    requires forall q :: q in AllLeaves(t, root) ==>
             q in AllLeaves(u, root) && Read(t, q).Some? && Read(u, q) == Read(t, q)
    requires i < |files|
    ensures files[i] in others
  {
    var p := root + files[i].path;
    var j :| 0 <= j < |others| && root + others[j].path == p;
    assert files[i].path == p[|root|..] == others[j].path;
    assert Sized(t, root, files[i]) && Sized(u, root, others[j]);
  }

  /** Complete listings of two such trees hold the same (path, size) pairs. */
  lemma SameListing(t: Tree, u: Tree, root: Path, sys: Syscalls, files: seq<FileEntry>, sysU: Syscalls,
                    others: seq<FileEntry>)
    requires SameToAWalk(t, u, root) && Clean(t, root, sys) && Clean(u, root, sysU)
    requires Lists(t, root, files, Listed(t, root, sys)) && Lists(u, root, others, Listed(u, root, sysU))
    ensures forall f :: f in files <==> f in others
  {
    hide Lists, Clean, Listed;
    CompleteListingHasEveryLeaf(t, root, sys);
    CompleteListingHasEveryLeaf(u, root, sysU);
    SameLeaves(t, u, root);
    forall f | f in files ensures f in others {
      var i :| 0 <= i < |files| && files[i] == f;
      EntryFromOtherTree(t, u, root, files, others, i);
    }
    forall f | f in others ensures f in files {
      var i :| 0 <= i < |others| && others[i] == f;
      EntryFromOtherTree(u, t, root, others, files, i);
    }
  }

  lemma BelowColdIsCold(y: Layout, dir: Path, p: Path)
    requires Cold(y, dir) && Under(dir, p)
    ensures Cold(y, p)
  {
    var i :| 0 <= i < |y.coldRoots| && Under(y.coldRoots[i], dir);
    assert p[..|y.coldRoots[i]|] == p[..|dir|][..|y.coldRoots[i]|];
    assert Under(y.coldRoots[i], p);
  }

  lemma CloudDirIsNotCold(y: Layout, p: Path)
    requires Separate(y) && Cloud(y, p)
    ensures !Cold(y, y.cloudDir)
  {
    if Cold(y, y.cloudDir) {
      BelowColdIsCold(y, y.cloudDir, p);
    }
  }

  /** Demoting a file shows a walk of the cloud directory nothing new. */
  lemma DemotionIsInvisibleToAWalk(y: Layout, t: Tree, u: Tree, p: Path, slot: Path, data: Bytes)
    requires Separate(y) && Tiered(y, t) && Cloud(y, p) && Cold(y, slot) && Unreferenced(y, t, slot)
    requires Read(t, p) == Some(data) && DemotedTree(y, t, u, p, slot, data)
    requires y.cloudDir in t && t[y.cloudDir].Dir?
    ensures SameToAWalk(t, u, y.cloudDir)
  {
    CloudDirIsNotCold(y, p);
    assert !Cloud(y, slot) && p in t;
    forall q | Under(y.cloudDir, q) ensures SameEntry(t, u, q) {
      assert q in t && q != p && t[q].Link? ==> Cold(y, t[q].target) && !Cold(y, p) && t[q].target != slot;
    }
  }

  /** Nor does promoting one, whether or not its blob could be removed. */
  lemma PromotionIsInvisibleToAWalk(y: Layout, t: Tree, u: Tree, p: Path)
    requires Separate(y) && Tiered(y, t) && Cloud(y, p) && Promotable(t, p)
    requires u == PromotedTree(t, p) || u == PromotedTreeKeepingBlob(t, p)
    requires y.cloudDir in t && t[y.cloudDir].Dir?
    ensures SameToAWalk(t, u, y.cloudDir)
  {
    CloudDirIsNotCold(y, p);
    var blob := t[p].target;
    assert Cold(y, blob) && !Cloud(y, blob);
    forall q | Under(y.cloudDir, q) ensures SameEntry(t, u, q) {
      assert q in t && q != p && t[q].Link? ==> Cold(y, t[q].target) && !Cold(y, p) && t[q].target != blob;
    }
  }

  /** While both listings are complete (the drive resolves), a demotion leaves the listed pairs as they were. */
  lemma DemotionKeepsTheListing(y: Layout, t: Tree, u: Tree, p: Path, slot: Path, data: Bytes, sys: Syscalls,
                                files: seq<FileEntry>, sysU: Syscalls, others: seq<FileEntry>)
    requires Separate(y) && Tiered(y, t) && Cloud(y, p) && Cold(y, slot) && Unreferenced(y, t, slot)
    requires Read(t, p) == Some(data) && DemotedTree(y, t, u, p, slot, data)
    requires Clean(t, y.cloudDir, sys) && Clean(u, y.cloudDir, sysU)
    requires Lists(t, y.cloudDir, files, Listed(t, y.cloudDir, sys))
             && Lists(u, y.cloudDir, others, Listed(u, y.cloudDir, sysU))
    ensures forall f :: f in files <==> f in others
  {
    DemotionIsInvisibleToAWalk(y, t, u, p, slot, data);
    SameListing(t, u, y.cloudDir, sys, files, sysU, others);
  }

  lemma PromotionKeepsTheListing(y: Layout, t: Tree, u: Tree, p: Path, sys: Syscalls,
                                 files: seq<FileEntry>, sysU: Syscalls, others: seq<FileEntry>)
    requires Separate(y) && Tiered(y, t) && Cloud(y, p) && Promotable(t, p)
    requires u == PromotedTree(t, p) || u == PromotedTreeKeepingBlob(t, p)
    requires Clean(t, y.cloudDir, sys) && Clean(u, y.cloudDir, sysU)
    requires Lists(t, y.cloudDir, files, Listed(t, y.cloudDir, sys))
             && Lists(u, y.cloudDir, others, Listed(u, y.cloudDir, sysU))
    ensures forall f :: f in files <==> f in others
  {
    PromotionIsInvisibleToAWalk(y, t, u, p);
    SameListing(t, u, y.cloudDir, sys, files, sysU, others);
  }

  /**
   * Whatever else fails, a leaf is listed if the directories down to it can be read and told apart, the
   * calls on it work (a link of known type needs no lstat), and it leads to a file.
   */
  lemma OnlyWhatFailsIsMissing(t: Tree, dir: Path, sys: Syscalls, p: Path)
    requires p in t && !t[p].Dir? && Read(t, p).Some? && |dir| < |p| && p[..|dir|] == dir
    requires forall k :: |dir| <= k < |p| ==> p[..k] in t && t[p[..k]].Dir? && p[..k] !in sys.readdirFails
    requires forall k :: |dir| < k < |p| ==> p[..k] !in sys.untyped || p[..k] !in sys.lstatFails
    requires p !in sys.statFails && (p in sys.lstatFails ==> t[p].Link? && p !in sys.untyped)
    ensures p in Listed(t, dir, sys)
  {
  }

  /**
   * With no call failing, a walk lists every leaf that leads to a file, and is complete exactly when all
   * of them do.
   */
  lemma WithoutFailuresOnlyDeadLinksAreMissing(t: Tree, dir: Path, sys: Syscalls)
    requires dir in t && t[dir].Dir? && sys.readdirFails == {} && sys.lstatFails == {} && sys.statFails == {}
    ensures Clean(t, dir, sys) <==> forall p :: p in AllLeaves(t, dir) ==> Read(t, p).Some?
    ensures forall p :: p in AllLeaves(t, dir) ==> (p in Listed(t, dir, sys) <==> Read(t, p).Some?)
  {
    if forall p :: p in AllLeaves(t, dir) ==> Read(t, p).Some? {
      forall p | p in t && Seen(t, dir, sys, p) ensures !Trouble(t, sys, p) {
        if !t[p].Dir? {
          assert p in AllLeaves(t, dir);
        }
      }
    } else if Clean(t, dir, sys) {
      CompleteListingHasEveryLeaf(t, dir, sys);
    }
  }

  /** Each entry of a listing has the length of the bytes its path reads. */
  lemma ListedSizesAreLengths(t: Tree, root: Path, dir: Path, sys: Syscalls, files: seq<FileEntry>)
    requires Lists(t, root, files, Listed(t, dir, sys))
    ensures forall e :: e in files ==>
              Read(t, root + e.path).Some? && e.size == |Read(t, root + e.path).value|
  {
    forall i | 0 <= i < |files|
      ensures Read(t, root + files[i].path).Some? && files[i].size == |Read(t, root + files[i].path).value|
    {
      assert Sized(t, root, files[i]);
    }
  }

  /** A demotion cannot turn a complete listing into an incomplete one. */
  lemma DemotionKeepsCompleteness(y: Layout, t: Tree, u: Tree, p: Path, slot: Path, data: Bytes, sys: Syscalls)
    requires Separate(y) && Tiered(y, t) && Cloud(y, p) && Cold(y, slot) && Unreferenced(y, t, slot)
    requires Read(t, p) == Some(data) && DemotedTree(y, t, u, p, slot, data)
    requires Clean(t, y.cloudDir, sys)
    ensures Clean(u, y.cloudDir, sys)
  {
    DemotionIsInvisibleToAWalk(y, t, u, p, slot, data);
    forall q | q in u && Seen(u, y.cloudDir, sys, q) ensures !Trouble(u, sys, q) {
      WalksAgree(t, u, y.cloudDir, sys, q);
      assert !Trouble(t, sys, q);
      if q != p && t[q].Link? {
        assert Cold(y, t[q].target) && !Cold(y, p);
        assert Read(u, q) == Read(t, q);
      }
    }
  }

  /**
   * A promotion keeps a complete listing complete exactly when lstat works on the file it brings
   * back, if the walk comes by it: a regular file is always lstat-ed, a link of known type never.
   */
  lemma PromotionKeepsCompletenessIff(y: Layout, t: Tree, u: Tree, p: Path, sys: Syscalls)
    requires Separate(y) && Tiered(y, t) && Cloud(y, p) && Promotable(t, p)
    requires u == PromotedTree(t, p) || u == PromotedTreeKeepingBlob(t, p)
    requires Clean(t, y.cloudDir, sys)
    ensures Clean(u, y.cloudDir, sys) <==> !(Seen(t, y.cloudDir, sys, p) && p in sys.lstatFails)
  {
    hide Separate, Tiered, Seen, Clean, SameToAWalk;
    CleanMeans(t, y.cloudDir, sys);
    CleanMeans(u, y.cloudDir, sys);
    PromotionIsInvisibleToAWalk(y, t, u, p);
    forall q ensures Seen(u, y.cloudDir, sys, q) <==> Seen(t, y.cloudDir, sys, q) {
      SeenAlike(t, u, y.cloudDir, sys, q);
    }
    forall q | q in u && Seen(u, y.cloudDir, sys, q) ensures q in t && Under(y.cloudDir, q) && !Trouble(t, sys, q) {
      StillAnEntry(t, u, y.cloudDir, sys, q);
    }
    forall q | q in u && q != p && Seen(u, y.cloudDir, sys, q) ensures !Trouble(u, sys, q) {
      NoNewTrouble(y, t, u, p, sys, q);
    }
  }

  lemma CleanMeans(t: Tree, dir: Path, sys: Syscalls)
    ensures Clean(t, dir, sys) <==>
            && dir in t && t[dir].Dir? && dir !in sys.readdirFails
            && forall p :: p in t && Seen(t, dir, sys, p) ==> !Trouble(t, sys, p)
  {
  }

  lemma SeenAlike(t: Tree, u: Tree, root: Path, sys: Syscalls, q: Path)
    requires SameToAWalk(t, u, root)
    ensures Seen(u, root, sys, q) <==> Seen(t, root, sys, q)
  {
    if Seen(u, root, sys, q) {
      WalksAgree(t, u, root, sys, q);
    }
    if Seen(t, root, sys, q) {
      forall k | |root| <= k < |q| ensures q[..k] in u && u[q[..k]].Dir? {
        var d := q[..k];
        assert d[..|root|] == root;
        assert if k > |root| then Under(root, d) && SameEntry(t, u, d) else d == root;
      }
    }
  }

  lemma StillAnEntry(t: Tree, u: Tree, root: Path, sys: Syscalls, q: Path)
    requires SameToAWalk(t, u, root) && q in u && Seen(t, root, sys, q)
    ensures q in t && Under(root, q)
  {
    assert Under(root, q) && SameEntry(t, u, q);
  }

  lemma NoNewTrouble(y: Layout, t: Tree, u: Tree, p: Path, sys: Syscalls, q: Path)
    requires Separate(y) && Tiered(y, t) && Cloud(y, p) && Promotable(t, p) && q != p && q in t && q in u
    requires u == PromotedTree(t, p) || u == PromotedTreeKeepingBlob(t, p)
    requires Under(y.cloudDir, q) || !t[q].Link?
    requires !Trouble(t, sys, q)
    ensures !Trouble(u, sys, q)
  {
    if t[q].Link? {
      assert Cold(y, t[q].target) && !Cold(y, p);
    }
  }

  /** A symbolic link to a directory, reached through real ones, makes every listing incomplete. */
  lemma ADirectorySymlinkMakesListingsIncomplete(t: Tree, dir: Path, sys: Syscalls, q: Path)
    requires q in t && t[q].Link? && t[q].target in t && t[t[q].target].Dir? && Inside(t, dir, q)
    ensures !Clean(t, dir, sys)
  {
    assert q in AllLeaves(t, dir) && Read(t, q).None?;
    if Clean(t, dir, sys) {
      CompleteListingHasEveryLeaf(t, dir, sys);
    }
  }

  lemma WalksAgree(t: Tree, u: Tree, root: Path, sys: Syscalls, q: Path)
    requires SameToAWalk(t, u, root) && Seen(u, root, sys, q)
    ensures Seen(t, root, sys, q)
  {
    forall k | |root| <= k < |q| ensures q[..k] in t && t[q[..k]].Dir? {
      var d := q[..k];
      assert d[..|root|] == root && d in u && u[d].Dir?;
      if k > |root| {
        assert Under(root, d) && SameEntry(t, u, d);
      } else {
        assert d == root;
      }
    }
  }
}
