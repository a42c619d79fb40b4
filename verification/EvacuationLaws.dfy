/** When an evacuation is safe, exactly, and what it achieves when nothing fails. */
module EvacuationLaws {
  import opened Options
  import opened Octets
  import opened FileTree
  import opened TieredStorage
  import opened TieringConditions
  import opened Evacuation

  /** `p` keeps its link but loses the blob: it was not moved, and the sweep finds the blob. */
  predicate Loses(y: Layout, t: Tree, coldRoot: Path, faults: Path -> PromoteFaults, stuck: Path -> bool, p: Path) {
    && OnDrive(t, coldRoot, p) && Promotable(t, p)
    && !(p in Visits(y, t) && IsMoved(t, coldRoot, faults, p))
    && t[p].target in Walk(t, coldRoot, RealFiles) && !stuck(t[p].target)
  }

  /** What the walk of the drive finds after migration: the blobs nobody was moved away from. */
  lemma LeftOnDrive(y: Layout, t: Tree, coldRoot: Path, faults: Path -> PromoteFaults)
    requires Separate(y) && Tiered(y, t) && coldRoot in y.coldRoots
    ensures var u := AfterMigration(t, coldRoot, faults, Visits(y, t));
            (Walk(u, coldRoot, RealFiles)
              == Walk(t, coldRoot, RealFiles) - Blobs(t, Migrated(t, coldRoot, faults, Visits(y, t))))
  {
    var visits := Visits(y, t);
    VisitsAreLinks(y, t);
    OnlyBlobsGo(y, t, coldRoot, faults, visits);
    var u := AfterMigration(t, coldRoot, faults, visits);
    var i :| 0 <= i < |y.coldRoots| && y.coldRoots[i] == coldRoot;
    assert forall p :: Under(coldRoot, p) ==> Cold(y, p) && !Cloud(y, p);
    OnlyFilesGo(y, t, coldRoot, faults, visits);
    SameWalk(t, u, coldRoot);
  }

  lemma VisitsAreLinks(y: Layout, t: Tree)
    ensures LinksOf(y, t, Visits(y, t))
  {
  }

  /** Directories stay directories, and become so nowhere. */
  lemma OnlyFilesGo(y: Layout, t: Tree, coldRoot: Path, faults: Path -> PromoteFaults, s: set<Path>)
    requires Separate(y) && Tiered(y, t) && LinksOf(y, t, s)
    ensures var u := AfterMigration(t, coldRoot, faults, s);
            forall q :: (q in t && t[q].Dir?) <==> (q in u && u[q].Dir?)
  {
    OnlyBlobsGo(y, t, coldRoot, faults, s);
  }

  lemma SameWalk(t: Tree, u: Tree, root: Path)
    requires forall q :: (q in t && t[q].Dir?) <==> (q in u && u[q].Dir?)
    ensures forall p :: Walkable(t, root, p) <==> Walkable(u, root, p)
  {
  }

  /** What a cloud path reads after migration: the same, whatever failed. */
  lemma MigrationKeepsReads(y: Layout, t: Tree, coldRoot: Path, faults: Path -> PromoteFaults, p: Path)
    requires Separate(y) && Tiered(y, t) && coldRoot in y.coldRoots && Cloud(y, p)
    ensures var u := AfterMigration(t, coldRoot, faults, Visits(y, t));
            && Read(u, p) == Read(t, p)
            && (p in u && u[p].Link? <==>
                p in t && t[p].Link? && !(p in Visits(y, t) && IsMoved(t, coldRoot, faults, p)))
            && (p in u && u[p].Link? ==> u[p] == t[p])
  {
    var s := Visits(y, t);
    VisitsAreLinks(y, t);
    OnlyBlobsGo(y, t, coldRoot, faults, s);
    var u := AfterMigration(t, coldRoot, faults, s);
    if p in t && t[p].Link? && !(p in s && IsMoved(t, coldRoot, faults, p)) {
      assert Cold(y, t[p].target);
      forall l | l in Migrated(t, coldRoot, faults, s) ensures t[l].target != t[p].target {
        assert l != p && LinksOf(y, t, s);
      }
      assert t[p].target !in s;
    }
  }

  /** After the sweep, a cloud path has lost its bytes exactly if it is one of the losers. */
  lemma ReadAfterSweep(y: Layout, t: Tree, coldRoot: Path, faults: Path -> PromoteFaults, stuck: Path -> bool, p: Path)
    requires Separate(y) && Tiered(y, t) && coldRoot in y.coldRoots && Cloud(y, p)
    ensures Read(Evacuated(y, t, coldRoot, faults, stuck), p)
         == if Loses(y, t, coldRoot, faults, stuck, p) then None else Read(t, p)
  {
    var s := Visits(y, t);
    var u := AfterMigration(t, coldRoot, faults, s);
    MigrationKeepsReads(y, t, coldRoot, faults, p);
    LeftOnDrive(y, t, coldRoot, faults);
    var i :| 0 <= i < |y.coldRoots| && y.coldRoots[i] == coldRoot;
    assert p !in Walk(u, coldRoot, RealFiles) by {
      assert Under(coldRoot, p) ==> Cold(y, p);
    }
    if p in u && u[p].Link? {
      VisitsAreLinks(y, t);
      forall l | l in Migrated(t, coldRoot, faults, s) ensures t[l].target != t[p].target {
        assert l != p;
      }
      BlobIsKept(y, t, coldRoot, faults, s, t[p].target);
    }
  }

  /** A blob no migrated link points at is still there, with its bytes. */
  lemma BlobIsKept(y: Layout, t: Tree, coldRoot: Path, faults: Path -> PromoteFaults, s: set<Path>, b: Path)
    requires Separate(y) && Tiered(y, t) && LinksOf(y, t, s)
    requires forall l :: l in Migrated(t, coldRoot, faults, s) ==> t[l].target != b
    ensures b in AfterMigration(t, coldRoot, faults, s) <==> b in t
    ensures b !in Blobs(t, Migrated(t, coldRoot, faults, s))
  {
  }

  lemma SafeIffNobodyLoses(y: Layout, t: Tree, coldRoot: Path, faults: Path -> PromoteFaults, stuck: Path -> bool)
    requires Separate(y) && Tiered(y, t) && coldRoot in y.coldRoots
    ensures EveryReadKept(y, t, Evacuated(y, t, coldRoot, faults, stuck)) <==>
            forall p :: Cloud(y, p) ==> !Loses(y, t, coldRoot, faults, stuck, p)
  {
    forall p | Cloud(y, p)
      ensures Read(t, p) == Read(Evacuated(y, t, coldRoot, faults, stuck), p) <==>
              !Loses(y, t, coldRoot, faults, stuck, p)
    {
      ReadAfterSweep(y, t, coldRoot, faults, stuck, p);
    }
  }

  // ------------------------------------------------------------------ with the temp files left behind

  /** The tree evacuateDrive leaves, stray temp files included. */
  ghost function LeftBehind(y: Layout, t: Tree, coldRoot: Path, faults: Path -> PromoteFaults, stuck: Path -> bool,
                            tmpFor: Path -> Path): Tree {
    Evacuated(y, t, coldRoot, faults, stuck) + Strays(t, coldRoot, faults, tmpFor, Visits(y, t))
  }

  ghost predicate IsStray(y: Layout, t: Tree, coldRoot: Path, faults: Path -> PromoteFaults, tmpFor: Path -> Path,
                          p: Path) {
    p in StrayNames(t, coldRoot, faults, tmpFor, Visits(y, t))
  }

  /**
   * What a cloud path reads after an evacuation, whatever failed on the way: as before, nothing if
   * it is one of the losers, and some bytes if it is a temp file that could not be removed.
   */
  lemma ReadAfterEvacuation(y: Layout, t: Tree, coldRoot: Path, faults: Path -> PromoteFaults, stuck: Path -> bool,
                            tmpFor: Path -> Path, p: Path)
    requires Separate(y) && Tiered(y, t) && coldRoot in y.coldRoots && Cloud(y, p) && TempNames(y, t, tmpFor)
    ensures var u := LeftBehind(y, t, coldRoot, faults, stuck, tmpFor);
            if IsStray(y, t, coldRoot, faults, tmpFor, p) then p !in t && Read(u, p).Some?
            else Read(u, p) == if Loses(y, t, coldRoot, faults, stuck, p) then None else Read(t, p)
  {
    hide Strays, Evacuated, Loses, Tiered, Separate, TempNames, LinksOf, StrayNames;
    var visits := Visits(y, t);
    VisitsAreLinks(y, t);
    var strays := Strays(t, coldRoot, faults, tmpFor, visits);
    var e := Evacuated(y, t, coldRoot, faults, stuck);
    StraysAreNewCloudFiles(y, t, coldRoot, faults, tmpFor, visits);
    KeysOfStrays(t, coldRoot, faults, tmpFor, visits);
    ReadAfterSweep(y, t, coldRoot, faults, stuck, p);
    LinksLeft(y, t, coldRoot, faults, stuck, p);
    ReadBesideStrays(e, strays, p);
  }

  lemma ReadBesideStrays(e: Tree, strays: Tree, p: Path)
    requires forall q :: q in strays ==> strays[q].File?
    requires p in e && e[p].Link? && p !in strays ==> e[p].target !in strays
    ensures if p in strays then Read(e + strays, p).Some? else Read(e + strays, p) == Read(e, p)
  {
  }

  /** A cloud link still there afterwards is one of those that were there, and leads onto a drive. */
  lemma LinksLeft(y: Layout, t: Tree, coldRoot: Path, faults: Path -> PromoteFaults, stuck: Path -> bool, p: Path)
    requires Separate(y) && Tiered(y, t) && coldRoot in y.coldRoots && Cloud(y, p)
    ensures var e := Evacuated(y, t, coldRoot, faults, stuck);
            p in e && e[p].Link? ==> p in t && e[p] == t[p] && !Cloud(y, t[p].target)
  {
    hide AfterMigration, Tiered, Separate, Visits;
    MigrationKeepsReads(y, t, coldRoot, faults, p);
    if p in t && t[p].Link? {
      CloudTargetsAreCold(y, t, p);
    }
  }

  lemma KeysOfStrays(t: Tree, coldRoot: Path, faults: Path -> PromoteFaults, tmpFor: Path -> Path, s: set<Path>)
    ensures Strays(t, coldRoot, faults, tmpFor, s).Keys == StrayNames(t, coldRoot, faults, tmpFor, s)
  {
  }

  /**
   * Evacuation keeps every cloud file exactly when it has no loser: no link that the first walk
   * does not reach, or whose copy failed, to a blob that the second walk reaches and can remove.
   */
  lemma EvacuationIsSafeIff(y: Layout, t: Tree, coldRoot: Path, faults: Path -> PromoteFaults, stuck: Path -> bool,
                            tmpFor: Path -> Path)
    requires Separate(y) && Tiered(y, t) && coldRoot in y.coldRoots && TempNames(y, t, tmpFor)
    ensures (forall p :: p in t && Cloud(y, p) ==>
            Read(LeftBehind(y, t, coldRoot, faults, stuck, tmpFor), p) == Read(t, p))
       <==> (forall p :: Cloud(y, p) ==> !Loses(y, t, coldRoot, faults, stuck, p))
  {
    forall p | Cloud(y, p) && p in t
      ensures Read(LeftBehind(y, t, coldRoot, faults, stuck, tmpFor), p) == Read(t, p)
         <==> !Loses(y, t, coldRoot, faults, stuck, p)
    {
      ReadAfterEvacuation(y, t, coldRoot, faults, stuck, tmpFor, p);
      LosersHadBytes(y, t, coldRoot, faults, stuck, p);
    }
  }

  lemma LosersHadBytes(y: Layout, t: Tree, coldRoot: Path, faults: Path -> PromoteFaults, stuck: Path -> bool, p: Path)
    ensures Loses(y, t, coldRoot, faults, stuck, p) ==> Read(t, p).Some?
  {
  }

  // ------------------------------------------------------------------ what is visited and counted

  /** The first walk yields the links, and the second the files, below a directory through visible names. */
  lemma WhatTheWalksYield(t: Tree, root: Path, p: Path)
    ensures var reached := |root| < |p| && p[..|root|] == root && forall k :: |root| <= k < |p| ==>
              && p[..k] in t && t[p[..k]].Dir?
              && p[k] != "" && p[k][0] != '.' && p[k][0] != '_';
            && (p in Walk(t, root, Symlinks) <==> reached && p in t && t[p].Link?)
            && (p in Walk(t, root, RealFiles) <==> reached && p in t && t[p].File?)
  {
  }

  /**
   * A visited link counts as migrated exactly if it leads below the drive, to a file, and no call for it
   * fails; if it leads below the drive otherwise, it counts as an error.
   */
  lemma WhatAVisitCountsAs(t: Tree, coldRoot: Path, faults: Path -> PromoteFaults, s: set<Path>, p: Path)
    requires p in s && p in t && t[p].Link?
    ensures var q := t[p].target;
            var below := |coldRoot| < |q| && q[..|coldRoot|] == coldRoot;
            var fine := q in t && t[q].File? && faults(p).copy.NoFault? && !faults(p).rename && !faults(p).rmBlob;
            && (p in Migrated(t, coldRoot, faults, s) <==> below && fine)
            && (p in Failures(t, coldRoot, faults, s) <==> below && !fine)
  {
  }

  /** The bytes reported are the lengths of the migrated files, each once. */
  lemma TheBytesAreTheLengths(t: Tree, s: set<Path>, p: Path)
    requires p !in s && Read(t, p).Some?
    ensures Weight(t, {}) == 0 && Weight(t, s + {p}) == |Read(t, p).value| + Weight(t, s)
  {
    WeightAdds(t, s, p);
  }

  // ------------------------------------------------------------------ two trees with a loser

  /** A cloud directory with one entry, a link to the one blob of a drive. */
  const SMALL_LAYOUT := Layout(["c"], [["d"]])

  function SmallTree(name: string, data: Bytes): Tree {
    map[["c"] := Dir, ["c", name] := Link(["d", "b"]), ["d"] := Dir, ["d", "b"] := File(data)]
  }

  lemma SmallTreeIsTiered(name: string, data: Bytes)
    ensures Separate(SMALL_LAYOUT) && Tiered(SMALL_LAYOUT, SmallTree(name, data))
    ensures Cloud(SMALL_LAYOUT, ["c", name]) && ["d"] in SMALL_LAYOUT.coldRoots
    ensures Read(SmallTree(name, data), ["c", name]) == Some(data)
    ensures ["d", "b"] in Walk(SmallTree(name, data), ["d"], RealFiles)
  {
    var y, t := SMALL_LAYOUT, SmallTree(name, data);
    forall p ensures !(Cloud(y, p) && Cold(y, p)) {
      assert "c"[0] != "d"[0];
    }
    assert Under(y.coldRoots[0], ["d", "b"]);
    forall p | p in t && Cloud(y, p) ensures p == ["c", name] {
    }
    forall p | p in t && Cold(y, p) ensures p == ["d", "b"] {
    }
    assert Walkable(t, ["d"], ["d", "b"]) by {
      assert ["d", "b"][..1] == ["d"];
    }
  }

  /**
   * The failing input: a link under a hidden name, one that begins with a dot or an underscore, is not
   * visited, and the sweep takes its blob although nothing failed.
   */
  lemma AHiddenLinkLosesItsBlob(name: string, data: Bytes, faults: Path -> PromoteFaults, stuck: Path -> bool)
    requires name != "" && (name[0] == '.' || name[0] == '_') && !stuck(["d", "b"])
    ensures var t := SmallTree(name, data);
            && Loses(SMALL_LAYOUT, t, ["d"], faults, stuck, ["c", name])
            && Read(t, ["c", name]) == Some(data)
            && Read(Evacuated(SMALL_LAYOUT, t, ["d"], faults, stuck), ["c", name]) == None
  {
    var y, t, p := SMALL_LAYOUT, SmallTree(name, data), ["c", name];
    SmallTreeIsTiered(name, data);
    assert p[1] == name && !Visible(p[1]);
    assert p !in Visits(y, t);
    ReadAfterSweep(y, t, ["d"], faults, stuck, p);
  }

  /** Another: a link whose copy is refused keeps pointing at a blob that the sweep removes. */
  lemma AFailedCopyLosesTheBlob(data: Bytes, faults: Path -> PromoteFaults, stuck: Path -> bool)
    requires faults(["c", "a"]).copy.Refused? && !stuck(["d", "b"])
    ensures var t := SmallTree("a", data);
            && ["c", "a"] in Visits(SMALL_LAYOUT, t)
            && Migrated(t, ["d"], faults, Visits(SMALL_LAYOUT, t)) == {}
            && Failures(t, ["d"], faults, Visits(SMALL_LAYOUT, t)) == {["c", "a"]}
            && Loses(SMALL_LAYOUT, t, ["d"], faults, stuck, ["c", "a"])
            && Read(t, ["c", "a"]) == Some(data)
            && Read(Evacuated(SMALL_LAYOUT, t, ["d"], faults, stuck), ["c", "a"]) == None
  {
    var y, t, p := SMALL_LAYOUT, SmallTree("a", data), ["c", "a"];
    SmallTreeIsTiered("a", data);
    assert Walkable(t, ["c"], p) by {
      assert p[..1] == ["c"];
    }
    ReadAfterSweep(y, t, ["d"], faults, stuck, p);
  }

  /** Every link to the drive resolves, is walkable, and its blob is a walkable file of the drive. */
  ghost predicate FullyWalkable(y: Layout, t: Tree, coldRoot: Path) {
    forall p :: Cloud(y, p) && OnDrive(t, coldRoot, p) ==>
      p in Visits(y, t) && Promotable(t, p) && t[p].target in Walk(t, coldRoot, RealFiles)
  }

  ghost predicate NothingFails(faults: Path -> PromoteFaults, stuck: Path -> bool) {
    && (forall p :: faults(p).copy.NoFault? && !faults(p).rename && !faults(p).rmTemp && !faults(p).rmBlob)
    && (forall p :: !stuck(p))
  }

  lemma {:induction false} DistinctTargetsCount(t: Tree, s: set<Path>)
    requires forall p :: p in s ==> p in t && t[p].Link?
    requires forall p, q :: p in s && q in s && p != q ==> t[p].target != t[q].target
    ensures |Blobs(t, s)| == |s|
  {
    if s == {} {
      assert Blobs(t, s) == {};
    } else {
      var p :| p in s;
      DistinctTargetsCount(t, s - {p});
      assert Blobs(t, s) == Blobs(t, s - {p}) + {t[p].target};
    }
  }

  function DriveLinks(y: Layout, t: Tree, coldRoot: Path): set<Path> {
    set p | p in t && Cloud(y, p) && OnDrive(t, coldRoot, p)
  }

  /**
   * When nothing fails and every link to the drive is walkable: all files read as before, no link
   * to the drive and no walkable file on it remain, nothing is an error, every walkable blob was
   * either migrated or an orphan, and the bytes reported are those of the links to the drive.
   */
  lemma CleanEvacuation(y: Layout, t: Tree, coldRoot: Path, faults: Path -> PromoteFaults, stuck: Path -> bool)
    requires Separate(y) && Tiered(y, t) && coldRoot in y.coldRoots
    requires FullyWalkable(y, t, coldRoot) && NothingFails(faults, stuck)
    ensures var u := Evacuated(y, t, coldRoot, faults, stuck);
            && EveryReadKept(y, t, u)
            && DriveLinks(y, u, coldRoot) == {} && Walk(u, coldRoot, RealFiles) == {}
    ensures Migrated(t, coldRoot, faults, Visits(y, t)) == DriveLinks(y, t, coldRoot)
    ensures Failures(t, coldRoot, faults, Visits(y, t)) == {}
    ensures forall tmpFor :: Strays(t, coldRoot, faults, tmpFor, Visits(y, t)) == map[]
    ensures var left := Walk(AfterMigration(t, coldRoot, faults, Visits(y, t)), coldRoot, RealFiles);
            |Migrated(t, coldRoot, faults, Visits(y, t))| + |Cleared(stuck, left)| == |Walk(t, coldRoot, RealFiles)|
  {
    hide AfterMigration;
    hide Loses;
    hide Walk;
    hide Migrated;
    hide Failures;
    hide FullyWalkable;
    hide DriveLinks;
    CleanMigration(y, t, coldRoot, faults, stuck);
    CleanCounts(y, t, coldRoot, faults, stuck);
    NobodyLoses(y, t, coldRoot, faults, stuck);
    SafeIffNobodyLoses(y, t, coldRoot, faults, stuck);
    NoStrays(t, coldRoot, faults, stuck, Visits(y, t));
    NoLinksRemain(y, t, coldRoot, faults, stuck);
    NoFilesRemain(y, t, coldRoot, faults, stuck);
  }

  lemma NoStrays(t: Tree, coldRoot: Path, faults: Path -> PromoteFaults, stuck: Path -> bool, s: set<Path>)
    requires NothingFails(faults, stuck)
    ensures forall tmpFor :: Strays(t, coldRoot, faults, tmpFor, s) == map[]
  {
    forall tmpFor ensures Strays(t, coldRoot, faults, tmpFor, s) == map[] {
      assert StrayNames(t, coldRoot, faults, tmpFor, s) == {};
    }
  }

  lemma NobodyLoses(y: Layout, t: Tree, coldRoot: Path, faults: Path -> PromoteFaults, stuck: Path -> bool)
    requires FullyWalkable(y, t, coldRoot) && NothingFails(faults, stuck)
    ensures forall p :: Cloud(y, p) ==> !Loses(y, t, coldRoot, faults, stuck, p)
  {
  }

  lemma CleanMigration(y: Layout, t: Tree, coldRoot: Path, faults: Path -> PromoteFaults, stuck: Path -> bool)
    requires FullyWalkable(y, t, coldRoot) && NothingFails(faults, stuck)
    ensures Migrated(t, coldRoot, faults, Visits(y, t)) == DriveLinks(y, t, coldRoot)
    ensures Failures(t, coldRoot, faults, Visits(y, t)) == {}
  {
  }

  lemma CleanCounts(y: Layout, t: Tree, coldRoot: Path, faults: Path -> PromoteFaults, stuck: Path -> bool)
    requires Separate(y) && Tiered(y, t) && coldRoot in y.coldRoots
    requires FullyWalkable(y, t, coldRoot) && NothingFails(faults, stuck)
    ensures var left := Walk(AfterMigration(t, coldRoot, faults, Visits(y, t)), coldRoot, RealFiles);
            |DriveLinks(y, t, coldRoot)| + |Cleared(stuck, left)| == |Walk(t, coldRoot, RealFiles)|
  {
    var links, all := DriveLinks(y, t, coldRoot), Walk(t, coldRoot, RealFiles);
    CleanMigration(y, t, coldRoot, faults, stuck);
    LeftOnDrive(y, t, coldRoot, faults);
    assert Cleared(stuck, all - Blobs(t, links)) == all - Blobs(t, links);
    DistinctTargetsCount(t, links);
    assert Blobs(t, links) <= all;
  }

  lemma NoLinksRemain(y: Layout, t: Tree, coldRoot: Path, faults: Path -> PromoteFaults, stuck: Path -> bool)
    requires Separate(y) && Tiered(y, t) && coldRoot in y.coldRoots
    requires FullyWalkable(y, t, coldRoot) && NothingFails(faults, stuck)
    ensures DriveLinks(y, Evacuated(y, t, coldRoot, faults, stuck), coldRoot) == {}
  {
    forall p | Cloud(y, p) ensures !OnDrive(Evacuated(y, t, coldRoot, faults, stuck), coldRoot, p) {
      MigrationKeepsReads(y, t, coldRoot, faults, p);
    }
  }

  lemma NoFilesRemain(y: Layout, t: Tree, coldRoot: Path, faults: Path -> PromoteFaults, stuck: Path -> bool)
    requires NothingFails(faults, stuck)
    ensures Walk(Evacuated(y, t, coldRoot, faults, stuck), coldRoot, RealFiles) == {}
  {
    var u := AfterMigration(t, coldRoot, faults, Visits(y, t));
    var w := u - Cleared(stuck, Walk(u, coldRoot, RealFiles));
    forall q | q in Cleared(stuck, Walk(u, coldRoot, RealFiles)) ensures u[q].File? {
    }
    assert forall q :: (q in u && u[q].Dir?) <==> (q in w && w[q].Dir?);
    SameWalk(u, w, coldRoot);
  }
}
