/** Deleting a file or a whole directory takes the cold blobs its links point to along, and no others. */
module ColdDeletion {
  import opened Options
  import opened FileTree
  import opened TieredStorage
  import opened Evacuation

  /** Directories that cannot be read, and blobs that cannot be removed. */
  datatype Trouble = Trouble(unreadable: set<Path>, stuck: set<Path>)

  /** At `p`, or below it through readable real directories; hidden names are no exception. */
  predicate Reaches(t: Tree, x: Trouble, p: Path, q: Path) {
    q == p || (Under(p, q) && forall k :: |p| <= k < |q| ==> q[..k] in t && t[q[..k]].Dir? && q[..k] !in x.unreadable)
  }

  predicate Drops(y: Layout, t: Tree, x: Trouble, q: Path) {
    q in t && t[q].Link? && Cold(y, t[q].target) && t[q].target in t && t[t[q].target].File? && t[q].target !in x.stuck
  }

  /** The blobs that go when `p` does. */
  function ColdData(y: Layout, t: Tree, x: Trouble, p: Path): set<Path> {
    set q | q in t && Drops(y, t, x, q) && Reaches(t, x, p, q) :: t[q].target
  }

  /** Those reached through the entries `names` of `p`. */
  function ColdDataThrough(y: Layout, t: Tree, x: Trouble, p: Path, names: set<string>): set<Path> {
    set q | q in t && Drops(y, t, x, q) && Reaches(t, x, p, q) && |q| > |p| && q[|p|] in names :: t[q].target
  }

  ghost predicate OnlyFiles(t: Tree, gone: set<Path>) {
    forall p :: p in gone && p in t ==> t[p].File?
  }

  /** Removing files changes neither the links nor the way to them. */
  lemma FilesGoneChangeNoPath(y: Layout, t: Tree, x: Trouble, gone: set<Path>, p: Path)
    requires OnlyFiles(t, gone)
    ensures ColdData(y, t - gone, x, p) == ColdData(y, t, x, p) - gone
    ensures Names(t - gone, p) <= Names(t, p)
  {
    var u := t - gone;
    forall q ensures Reaches(t, x, p, q) <==> Reaches(u, x, p, q) {
    }
    forall q ensures Drops(y, u, x, q) <==> Drops(y, t, x, q) && t[q].target !in gone {
    }
  }

  lemma ReachesThroughEntry(t: Tree, x: Trouble, p: Path, n: string, q: Path)
    requires p in t && t[p].Dir? && p !in x.unreadable
    ensures Reaches(t, x, p, q) && |q| > |p| && q[|p|] == n <==> Reaches(t, x, p + [n], q)
  {
    var e := p + [n];
    if Reaches(t, x, p, q) && |q| > |p| && q[|p|] == n {
      assert q[..|p|] == p && q[..|e|] == e;
      if |q| == |e| {
        assert q == e;
      }
    }
    if Reaches(t, x, e, q) {
      assert e[..|p|] == p;
      assert q[..|e|] == e by { if q == e { assert q[..|e|] == q; } }
      assert q[..|p|] == e[..|p|];
      assert q[|p|] == e[|p|];
    }
  }

  lemma ThroughOneMoreEntry(y: Layout, t: Tree, x: Trouble, p: Path, names: set<string>, n: string)
    requires p in t && t[p].Dir? && p !in x.unreadable
    ensures ColdDataThrough(y, t, x, p, names + {n}) == ColdDataThrough(y, t, x, p, names) + ColdData(y, t, x, p + [n])
  {
    forall q ensures Reaches(t, x, p, q) && |q| > |p| && q[|p|] == n <==> Reaches(t, x, p + [n], q) {
      ReachesThroughEntry(t, x, p, n, q);
    }
  }

  lemma AllAreThroughTheNames(y: Layout, t: Tree, x: Trouble, p: Path)
    requires p in t && t[p].Dir? && p !in x.unreadable
    ensures ColdData(y, t, x, p) == ColdDataThrough(y, t, x, p, Names(t, p))
  {
    forall q | q in t && Drops(y, t, x, q) && Reaches(t, x, p, q) ensures |q| > |p| && q[|p|] in Names(t, p) {
      assert q != p;
      var e := q[..|p| + 1];
      assert e in t by { assert |q| == |p| + 1 ==> e == q; }
      assert |e| == |p| + 1 && e[..|p|] == p && e[|p|] == q[|p|];
    }
  }

  // ------------------------------------------------------------------ the walk that removes them

  ghost predicate NoLinksOnDrives(y: Layout, t: Tree) {
    forall p :: p in t && Cold(y, p) ==> !t[p].Link?
  }

  class ColdCleaner {
    const layout: Layout
    const disk: Disk
    const trouble: Trouble

    constructor (layout: Layout, disk: Disk, trouble: Trouble)
      ensures this.layout == layout && this.disk == disk && this.trouble == trouble
    {
      this.layout, this.disk, this.trouble := layout, disk, trouble;
    }

    /** removeColdData(): the path itself stays; only what its links point to on a drive is removed. */
    method RemoveColdData(p: Path)
      requires NoLinksOnDrives(layout, disk.nodes)
      modifies disk
      ensures disk.nodes == old(disk.nodes) - ColdData(layout, old(disk.nodes), trouble, p)
      decreases AllBelow(disk.nodes, p)
    {
      hide ColdData, ColdDataThrough, AllBelow, Names;
      var t := disk.nodes;
      if p !in t {
        NothingThere(layout, t, trouble, p);
      } else if t[p].Link? {
        LinkAlone(layout, t, trouble, p);
        if Cold(layout, t[p].target) {
          var _ := disk.Apply(Removed(t, t[p].target, t[p].target in trouble.stuck));
        }
      } else if t[p].Dir? && p !in trouble.unreadable {
        RemoveBelow(p);
      } else {
        NothingThere(layout, t, trouble, p);
      }
    }

    /** The loop over the entries of a directory. */
    method RemoveBelow(p: Path)
      requires NoLinksOnDrives(layout, disk.nodes)
      requires p in disk.nodes && disk.nodes[p].Dir? && p !in trouble.unreadable
      modifies disk
      ensures disk.nodes == old(disk.nodes) - ColdData(layout, old(disk.nodes), trouble, p)
      decreases AllBelow(disk.nodes, p), 0
    {
      hide ColdData, ColdDataThrough, AllBelow, Names;
      ghost var t := disk.nodes;
      var names := Names(disk.nodes, p);
      var rest := names;
      AllAreThroughTheNames(layout, t, trouble, p);
      NoneYet(layout, t, trouble, p);
      assert names - rest == {};
      while rest != {}
        invariant rest <= names
        invariant disk.nodes == t - ColdDataThrough(layout, t, trouble, p, names - rest)
        decreases rest
      {
        var n :| n in rest;
        ghost var gone := ColdDataThrough(layout, t, trouble, p, names - rest);
        ThroughIsPartOf(layout, t, trouble, p, names - rest);
        FilesGoneChangeNoPath(layout, t, trouble, gone, p + [n]);
        EntryIsBelow(t, gone, p, n);
        ThroughOneMoreEntry(layout, t, trouble, p, names - rest, n);
        RemoveColdData(p + [n]);
        ghost var more := ColdData(layout, t, trouble, p + [n]);
        assert t - gone - (more - gone) == t - (gone + more);
        assert names - rest + {n} == names - (rest - {n});
        rest := rest - {n};
      }
      assert names - rest == names;
    }
  }

  lemma NothingThere(y: Layout, t: Tree, x: Trouble, p: Path)
    requires p !in t || t[p].File? || (t[p].Dir? && p in x.unreadable)
    ensures ColdData(y, t, x, p) == {} && t - {} == t
  {
    forall q | Reaches(t, x, p, q) && q != p ensures p in t && t[p].Dir? && p !in x.unreadable {
      assert q[..|p|] == p;
    }
  }

  lemma ReachesBeyond(t: Tree, x: Trouble, p: Path, q: Path)
    requires Reaches(t, x, p, q) && q != p
    ensures p in t && t[p].Dir?
  {
    assert q[..|p|] == p;
  }

  lemma LinkAlone(y: Layout, t: Tree, x: Trouble, p: Path)
    requires p in t && t[p].Link?
    ensures ColdData(y, t, x, p) == if Drops(y, t, x, p) then {t[p].target} else {}
    ensures t - {} == t
  {
    forall q | Reaches(t, x, p, q) && q != p ensures t[p].Dir? {
      ReachesBeyond(t, x, p, q);
    }
  }

  lemma NoneYet(y: Layout, t: Tree, x: Trouble, p: Path)
    ensures ColdDataThrough(y, t, x, p, {}) == {} && t - {} == t
  {
  }

  lemma ThroughIsPartOf(y: Layout, t: Tree, x: Trouble, p: Path, names: set<string>)
    ensures ColdDataThrough(y, t, x, p, names) <= ColdData(y, t, x, p)
    ensures OnlyFiles(t, ColdDataThrough(y, t, x, p, names))
  {
  }

  lemma EntryIsBelow(t: Tree, gone: set<Path>, p: Path, n: string)
    requires n in Names(t, p)
    ensures AllBelow(t - gone, p + [n]) < AllBelow(t, p)
  {
    NamesAreEntries(t, p, n);
    var e := p + [n];
    forall q | q in AllBelow(t - gone, e) ensures q in AllBelow(t, p) {
      UnderEntry(p, n, q);
    }
    assert e[..|p|] == p;
    assert e in AllBelow(t, p) && e !in AllBelow(t - gone, e);
  }

  // ------------------------------------------------------------------ whom it affects

  /** A link outside `p` that shares a blob with one inside. */
  predicate Shares(y: Layout, t: Tree, x: Trouble, p: Path, q: Path) {
    q in t && Cloud(y, q) && t[q].Link? && t[q].target in ColdData(y, t, x, p) && !Reaches(t, x, p, q)
  }

  /**
   * Deleting `p` leaves what is outside it readable as before exactly when no link outside shares a blob
   * with one inside.
   */
  lemma DeletionIsConfinedIff(y: Layout, t: Tree, x: Trouble, p: Path)
    requires Separate(y)
    ensures (forall q :: Cloud(y, q) && !Reaches(t, x, p, q) ==> Read(t - ColdData(y, t, x, p), q) == Read(t, q))
       <==> (forall q :: !Shares(y, t, x, p, q))
  {
    var gone := ColdData(y, t, x, p);
    var u := t - gone;
    forall q | Cloud(y, q)
      ensures Read(u, q) == if q in t && t[q].Link? && t[q].target in gone then None else Read(t, q)
    {
      assert q !in gone by {
        assert q in gone ==> Cold(y, q);
      }
    }
    forall b | b in gone ensures b in t && t[b].File? {
    }
    if q :| Shares(y, t, x, p, q) {
      assert Read(u, q) == None && Read(t, q).Some?;
    } else {
      forall q | Cloud(y, q) && !Reaches(t, x, p, q) ensures Read(u, q) == Read(t, q) {
        assert !Shares(y, t, x, p, q);
      }
    }
  }

  /** In the state tiering maintains nothing is shared, so a deletion never touches anyone else's bytes. */
  lemma TieredDeletionIsConfined(y: Layout, t: Tree, x: Trouble, p: Path)
    requires Separate(y) && Tiered(y, t) && Cloud(y, p)
    ensures forall q :: Cloud(y, q) && !Reaches(t, x, p, q) ==> Read(t - ColdData(y, t, x, p), q) == Read(t, q)
  {
    hide ColdData, Reaches;
    forall q ensures !Shares(y, t, x, p, q) {
      NothingShared(y, t, x, p, q);
    }
    DeletionIsConfinedIff(y, t, x, p);
  }

  lemma NothingShared(y: Layout, t: Tree, x: Trouble, p: Path, q: Path)
    requires Separate(y) && Tiered(y, t) && Cloud(y, p)
    ensures !Shares(y, t, x, p, q)
  {
    if Shares(y, t, x, p, q) {
      var r :| r in t && Drops(y, t, x, r) && Reaches(t, x, p, r) && t[r].target == t[q].target;
      BelowCloudIsCloud(y, p, r);
    }
  }

  lemma BelowCloudIsCloud(y: Layout, p: Path, r: Path)
    requires Cloud(y, p) && (r == p || Under(p, r))
    ensures Cloud(y, r)
  {
    assert r[..|y.cloudDir|] == p[..|y.cloudDir|] by {
      assert r[..|p|] == p;
    }
  }

  /** With every directory readable and no blob stuck, no blob of the deleted links is left behind. */
  lemma NothingIsLeftBehind(y: Layout, t: Tree, x: Trouble, p: Path, q: Path)
    requires NoLinksOnDrives(y, t) && x.unreadable == {} && x.stuck == {}
    requires q in t && t[q].Link?
    requires exists i :: 0 <= i < |y.coldRoots| && y.coldRoots[i] < t[q].target
    requires p <= q && forall k :: |p| <= k < |q| ==> q[..k] in t && t[q[..k]].Dir?
    ensures var u := t - ColdData(y, t, x, p); t[q].target in u ==> u[t[q].target].Dir?
  {
    var i :| 0 <= i < |y.coldRoots| && y.coldRoots[i] < t[q].target;
    assert Under(y.coldRoots[i], t[q].target);
    if t[q].target in t && t[t[q].target].File? {
      assert Drops(y, t, x, q);
    }
  }

  /** What goes is a file below some drive that a link at or below the path leads to; everything else stays. */
  lemma OnlyBlobsOfItsLinksGo(y: Layout, t: Tree, x: Trouble, p: Path, b: Path)
    requires b in t && b !in t - ColdData(y, t, x, p)
    ensures t[b].File? && exists i :: 0 <= i < |y.coldRoots| && y.coldRoots[i] < b
    ensures exists q :: q in t && p <= q && t[q] == Link(b)
  {
    var q :| q in t && Drops(y, t, x, q) && Reaches(t, x, p, q) && t[q].target == b;
    var i :| 0 <= i < |y.coldRoots| && Under(y.coldRoots[i], b);
    assert y.coldRoots[i] < b;
    assert p <= q && t[q] == Link(b);
  }
}
