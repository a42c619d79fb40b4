/** Evacuating a cold drive: promote every link the walk finds, then remove every file left on it. */
module Evacuation {
  import opened Options
  import opened Octets
  import opened FileTree
  import opened TieredStorage

  // ------------------------------------------------------------------ the walks

  /** Hidden and internal entries are skipped by both walks. */
  predicate Visible(name: string) {
    name != "" && name[0] != '.' && name[0] != '_'
  }

  /** Reached from `root` by the walk: through real directories and visible names only. */
  predicate Walkable(t: Tree, root: Path, p: Path) {
    && Under(root, p)
    && (forall k :: |root| <= k < |p| ==> p[..k] in t && t[p[..k]].Dir? && Visible(p[k]))
  }

  datatype Kind = RealFiles | Symlinks

  predicate IsKind(n: Node, kind: Kind) {
    match kind
    case RealFiles => n.File?
    case Symlinks => n.Link?
  }

  /** What walkRealFiles or walkSymlinks yields below `root`. */
  function Walk(t: Tree, root: Path, kind: Kind): set<Path> {
    set p | p in t && IsKind(t[p], kind) && Walkable(t, root, p)
  }

  /** The part of the walk of `dir` that goes through the entries `names`. */
  function Through(t: Tree, dir: Path, kind: Kind, names: set<string>): set<Path> {
    set p | p in Walk(t, dir, kind) && p[|dir|] in names
  }

  function AllBelow(t: Tree, root: Path): set<Path> {
    set p | p in t && Under(root, p)
  }

  /** readdir: the names of the entries, or none if this is not a directory. */
  function Names(t: Tree, dir: Path): set<string> {
    if dir in t && t[dir].Dir? then set p | p in t && |p| == |dir| + 1 && p[..|dir|] == dir :: p[|dir|] else {}
  }

  lemma NamesAreEntries(t: Tree, dir: Path, n: string)
    requires n in Names(t, dir)
    ensures dir + [n] in t && dir in t && t[dir].Dir?
  {
    var p :| p in t && |p| == |dir| + 1 && p[..|dir|] == dir && p[|dir|] == n;
    assert p == dir + [n];
  }

  lemma WalkableStartsWithAName(t: Tree, dir: Path, p: Path)
    requires Walkable(t, dir, p) && p in t
    ensures p[|dir|] in Names(t, dir)
  {
    assert p[..|dir|] == dir;
    if |p| > |dir| + 1 {
      assert p[..|dir| + 1] in t;
    }
    assert p[..|dir| + 1] in t by { assert |p| == |dir| + 1 ==> p[..|dir| + 1] == p; }
    var q := p[..|dir| + 1];
    assert q in t && |q| == |dir| + 1 && q[..|dir|] == dir && q[|dir|] == p[|dir|];
  }

  /** Walking on from a directory entry is walking that directory. */
  lemma WalkThroughEntry(t: Tree, dir: Path, n: string, p: Path)
    requires dir in t && t[dir].Dir? && Visible(n)
    ensures Walkable(t, dir, p) && p[|dir|] == n && p != dir + [n] ==>
              dir + [n] in t && t[dir + [n]].Dir? && Walkable(t, dir + [n], p)
    ensures dir + [n] in t && t[dir + [n]].Dir? && Walkable(t, dir + [n], p) ==>
              Walkable(t, dir, p) && p[|dir|] == n && p != dir + [n]
    ensures Walkable(t, dir, dir + [n])
  {
    var e := dir + [n];
    assert e[..|dir|] == dir;
    if Walkable(t, dir, p) && p[|dir|] == n && p != e {
      assert p[..|e|] == e;
      assert |p| > |e|;
    }
    if e in t && t[e].Dir? && Walkable(t, e, p) {
      assert p[..|e|] == e && p[..|dir|] == dir;
      forall k | |dir| <= k < |p| ensures p[..k] in t && t[p[..k]].Dir? && Visible(p[k]) {
      }
    }
  }

  /** What the walk yields for one entry: the entry itself, or the walk of a subdirectory. */
  function OfEntry(t: Tree, e: Path, kind: Kind): set<Path>
    requires e in t
  {
    if t[e].Dir? then Walk(t, e, kind) else if IsKind(t[e], kind) then {e} else {}
  }

  lemma WalkOneMoreEntry(t: Tree, dir: Path, kind: Kind, names: set<string>, n: string)
    requires n in Names(t, dir) && n !in names
    ensures dir + [n] in t
    ensures Through(t, dir, kind, names + {n})
         == Through(t, dir, kind, names) + if Visible(n) then OfEntry(t, dir + [n], kind) else {}
    ensures t[dir + [n]].Dir? ==> AllBelow(t, dir + [n]) < AllBelow(t, dir)
  {
    NamesAreEntries(t, dir, n);
    var e := dir + [n];
    forall p | p in t && Visible(n)
      ensures Walkable(t, dir, p) && p[|dir|] == n <==> p == e || (t[e].Dir? && Walkable(t, e, p))
    {
      WalkThroughEntry(t, dir, n, p);
    }
    assert e in AllBelow(t, dir) && e !in AllBelow(t, e);
    forall p | p in AllBelow(t, e) ensures p in AllBelow(t, dir) {
      assert p[..|e|][..|dir|] == p[..|dir|];
    }
  }

  lemma WalkIsThroughItsNames(t: Tree, dir: Path, kind: Kind)
    ensures Through(t, dir, kind, Names(t, dir)) == Walk(t, dir, kind)
    ensures Through(t, dir, kind, {}) == {}
  {
    forall p | p in Walk(t, dir, kind) ensures p[|dir|] in Names(t, dir) {
      WalkableStartsWithAName(t, dir, p);
    }
  }

  // ------------------------------------------------------------------ what migration does

  /** The links that migration has to move off the drive. */
  predicate OnDrive(t: Tree, coldRoot: Path, p: Path) {
    p in t && t[p].Link? && Under(coldRoot, t[p].target)
  }

  predicate IsMoved(t: Tree, coldRoot: Path, faults: Path -> PromoteFaults, p: Path) {
    OnDrive(t, coldRoot, p) && Promotable(t, p) && faults(p).copy.NoFault? && !faults(p).rename
  }

  predicate IsMigrated(t: Tree, coldRoot: Path, faults: Path -> PromoteFaults, p: Path) {
    IsMoved(t, coldRoot, faults, p) && !faults(p).rmBlob
  }

  function Moved(t: Tree, coldRoot: Path, faults: Path -> PromoteFaults, s: set<Path>): set<Path> {
    set p | p in s && IsMoved(t, coldRoot, faults, p)
  }

  /** Moved without any error: these are the ones counted as migrated. */
  function Migrated(t: Tree, coldRoot: Path, faults: Path -> PromoteFaults, s: set<Path>): set<Path> {
    set p | p in s && IsMigrated(t, coldRoot, faults, p)
  }

  function Blobs(t: Tree, s: set<Path>): set<Path> {
    set p | p in s && p in t && t[p].Link? :: t[p].target
  }

  /** The tree once the links in `s` have been visited. */
  function AfterMigration(t: Tree, coldRoot: Path, faults: Path -> PromoteFaults, s: set<Path>): Tree {
    var moved := Moved(t, coldRoot, faults, s);
    var gone := Blobs(t, Migrated(t, coldRoot, faults, s));
    map p | p in t && p !in gone :: if p in moved then t[t[p].target] else t[p]
  }

  ghost function Weight(t: Tree, s: set<Path>): nat {
    if s == {} then 0 else var p :| p in s; Size(t, p) + Weight(t, s - {p})
  }

  function Size(t: Tree, p: Path): nat {
    if Read(t, p).Some? then |Read(t, p).value| else 0
  }

  lemma {:induction false} WeightAdds(t: Tree, s: set<Path>, p: Path)
    requires p !in s
    ensures Weight(t, s + {p}) == Size(t, p) + Weight(t, s)
  {
    var whole := s + {p};
    var q :| q in whole && Weight(t, whole) == Size(t, q) + Weight(t, whole - {q});
    if q == p {
      assert whole - {p} == s;
    } else {
      assert whole - {q} == (s - {q}) + {p};
      WeightAdds(t, s - {q}, p);
      assert (s - {q}) + {q} == s;
      WeightAdds(t, s - {q}, q);
    }
  }

  /** Links to the drive that could not be moved cleanly: these are the errors. */
  function Failures(t: Tree, coldRoot: Path, faults: Path -> PromoteFaults, s: set<Path>): set<Path> {
    set p | p in s && OnDrive(t, coldRoot, p) && !IsMigrated(t, coldRoot, faults, p)
  }

  datatype Report = Report(migrated: nat, bytes: nat, errors: nat, orphansRemoved: nat)

  ghost predicate Tallies(r: Report, t: Tree, migrated: set<Path>, failed: set<Path>) {
    r.migrated == |migrated| && r.bytes == Weight(t, migrated) && r.errors == |failed|
  }

  ghost predicate Counts(r: Report, t: Tree, coldRoot: Path, faults: Path -> PromoteFaults, s: set<Path>) {
    Tallies(r, t, Migrated(t, coldRoot, faults, s), Failures(t, coldRoot, faults, s))
  }

  lemma TallyOne(r: Report, t: Tree, migrated: set<Path>, failed: set<Path>, p: Path)
    requires Tallies(r, t, migrated, failed) && p !in migrated && p !in failed
    ensures Tallies(r.(migrated := r.migrated + 1, bytes := r.bytes + Size(t, p)), t, migrated + {p}, failed)
    ensures Tallies(r.(errors := r.errors + 1), t, migrated, failed + {p})
  {
    WeightAdds(t, migrated, p);
  }

  /** Distinct cloud links, as tiering leaves them. */
  ghost predicate LinksOf(y: Layout, t: Tree, s: set<Path>) {
    forall p :: p in s ==> p in t && t[p].Link? && Cloud(y, p)
  }

  lemma VisitExtends(t: Tree, coldRoot: Path, faults: Path -> PromoteFaults, s: set<Path>, p: Path)
    requires p !in s
    ensures var clean := IsMigrated(t, coldRoot, faults, p);
            && Moved(t, coldRoot, faults, s + {p})
               == Moved(t, coldRoot, faults, s) + (if IsMoved(t, coldRoot, faults, p) then {p} else {})
            && Migrated(t, coldRoot, faults, s + {p}) == Migrated(t, coldRoot, faults, s) + (if clean then {p} else {})
            && Failures(t, coldRoot, faults, s + {p})
               == Failures(t, coldRoot, faults, s) + (if OnDrive(t, coldRoot, p) && !clean then {p} else {})
  {
  }

  lemma BlobsExtend(t: Tree, s: set<Path>, p: Path)
    requires p in t && t[p].Link?
    ensures Blobs(t, s + {p}) == Blobs(t, s) + {t[p].target}
  {
  }

  predicate AsBefore(t: Tree, u: Tree, p: Path)
    requires p in t && t[p].Link?
  {
    && p in u && u[p] == t[p]
    && (t[p].target in t <==> t[p].target in u)
    && (t[p].target in t ==> u[t[p].target] == t[t[p].target])
  }

  lemma AsBeforeAgrees(t: Tree, u: Tree, coldRoot: Path, p: Path)
    requires p in t && t[p].Link? && AsBefore(t, u, p)
    ensures p in u && u[p].Link? && (Promotable(u, p) <==> Promotable(t, p)) && Size(u, p) == Size(t, p)
    ensures OnDrive(t, coldRoot, p) <==> Under(coldRoot, u[p].target)
  {
  }

  /** Before it is visited, a link and its blob are as they were. */
  lemma NotYetVisited(y: Layout, t: Tree, coldRoot: Path, faults: Path -> PromoteFaults, s: set<Path>, p: Path)
    requires Separate(y) && Tiered(y, t) && LinksOf(y, t, s)
    requires p in t && t[p].Link? && Cloud(y, p) && p !in s
    ensures AsBefore(t, AfterMigration(t, coldRoot, faults, s), p)
    ensures forall q :: q in AfterMigration(t, coldRoot, faults, s) ==> q in t
  {
    assert Cold(y, t[p].target) && !Cold(y, p);
    var gone := Blobs(t, Migrated(t, coldRoot, faults, s));
    forall q | q in gone ensures Cold(y, q) && q != t[p].target {
      var l :| l in Migrated(t, coldRoot, faults, s) && t[l].target == q;
      assert t[l].target != t[p].target;
    }
  }

  /** Visiting one more link is one more promotion. */
  lemma VisitIsAPromotion(y: Layout, t: Tree, coldRoot: Path, faults: Path -> PromoteFaults, s: set<Path>, p: Path)
    requires Separate(y) && Tiered(y, t) && LinksOf(y, t, s)
    requires p in t && t[p].Link? && Cloud(y, p) && p !in s
    ensures AfterMigration(t, coldRoot, faults, s + {p})
         == if OnDrive(t, coldRoot, p) then PromoteResult(AfterMigration(t, coldRoot, faults, s), p, faults(p))
            else AfterMigration(t, coldRoot, faults, s)
  {
    NotYetVisited(y, t, coldRoot, faults, s, p);
    VisitExtends(t, coldRoot, faults, s, p);
    BlobsExtend(t, Migrated(t, coldRoot, faults, s), p);
  }

  function Recorded(r: Report, t: Tree, coldRoot: Path, faults: Path -> PromoteFaults, p: Path): Report {
    if !OnDrive(t, coldRoot, p) then r
    else if IsMigrated(t, coldRoot, faults, p) then
      r.(migrated := r.migrated + 1, bytes := r.bytes + Size(t, p))
    else r.(errors := r.errors + 1)
  }

  /** Moving from the sets of `s` to those of `s + {p}` once both are known to agree. */
  lemma TallyTransfer(r: Report, t: Tree, m: set<Path>, f: set<Path>, m': set<Path>, f': set<Path>)
    requires Tallies(r, t, m, f) && m' == m && f' == f
    ensures Tallies(r, t, m', f')
  {
  }

  lemma CountsCarryOver(r: Report, t: Tree, coldRoot: Path, faults: Path -> PromoteFaults, s: set<Path>, p: Path)
    requires p !in s
    requires var clean := IsMigrated(t, coldRoot, faults, p);
             Tallies(r, t, Migrated(t, coldRoot, faults, s) + (if clean then {p} else {}),
                     Failures(t, coldRoot, faults, s) + (if OnDrive(t, coldRoot, p) && !clean then {p} else {}))
    ensures Counts(r, t, coldRoot, faults, s + {p})
  {
    var clean := IsMigrated(t, coldRoot, faults, p);
    VisitExtends(t, coldRoot, faults, s, p);
    TallyTransfer(r, t, Migrated(t, coldRoot, faults, s) + (if clean then {p} else {}),
                  Failures(t, coldRoot, faults, s) + (if OnDrive(t, coldRoot, p) && !clean then {p} else {}),
                  Migrated(t, coldRoot, faults, s + {p}), Failures(t, coldRoot, faults, s + {p}));
  }

  lemma RecordedTallies(r: Report, t: Tree, coldRoot: Path, faults: Path -> PromoteFaults, m: set<Path>, f: set<Path>,
                        p: Path)
    requires Tallies(r, t, m, f) && p !in m && p !in f
    ensures var clean := IsMigrated(t, coldRoot, faults, p);
            Tallies(Recorded(r, t, coldRoot, faults, p), t, m + (if clean then {p} else {}),
                    f + (if OnDrive(t, coldRoot, p) && !clean then {p} else {}))
  {
    TallyOne(r, t, m, f, p);
    assert m + {} == m && f + {} == f;
  }

  lemma CountsExtend(r: Report, t: Tree, coldRoot: Path, faults: Path -> PromoteFaults, s: set<Path>, p: Path)
    requires Counts(r, t, coldRoot, faults, s) && p !in s
    ensures Counts(Recorded(r, t, coldRoot, faults, p), t, coldRoot, faults, s + {p})
  {
    RecordedTallies(r, t, coldRoot, faults, Migrated(t, coldRoot, faults, s), Failures(t, coldRoot, faults, s), p);
    CountsCarryOver(Recorded(r, t, coldRoot, faults, p), t, coldRoot, faults, s, p);
  }

  /** Migration removes nothing but blobs, and changes nothing else but the links it visited. */
  lemma OnlyBlobsGo(y: Layout, t: Tree, coldRoot: Path, faults: Path -> PromoteFaults, s: set<Path>)
    requires Separate(y) && Tiered(y, t) && LinksOf(y, t, s)
    ensures var u := AfterMigration(t, coldRoot, faults, s);
            && (forall q :: q in u ==> q in t)
            && (forall q :: q in t && (t[q].Dir? || Cloud(y, q)) ==> q in u)
            && (forall q :: q in u && q !in s ==> u[q] == t[q])
            && (forall q :: q in u && q in s ==> !u[q].Dir?)
  {
    var gone := Blobs(t, Migrated(t, coldRoot, faults, s));
    forall q | q in gone ensures q in t && t[q].File? && !Cloud(y, q) {
      var l :| l in Migrated(t, coldRoot, faults, s) && t[l].target == q;
      assert Cold(y, t[l].target);
    }
  }

  lemma BelowCloud(y: Layout, dir: Path)
    requires dir == y.cloudDir || Cloud(y, dir)
    ensures forall p :: Under(dir, p) ==> Cloud(y, p)
  {
    forall p | Under(dir, p) ensures Cloud(y, p) {
      assert p[..|dir|][..|y.cloudDir|] == p[..|y.cloudDir|];
    }
  }

  lemma NamesAgree(t: Tree, u: Tree, dir: Path)
    requires forall p :: |p| == |dir| + 1 && p[..|dir|] == dir ==> (p in t <==> p in u)
    requires (dir in t && t[dir].Dir?) <==> (dir in u && u[dir].Dir?)
    ensures Names(u, dir) == Names(t, dir)
  {
  }

  predicate SameEntry(y: Layout, t: Tree, u: Tree, e: Path) {
    e in t && e in u && Cloud(y, e) && u[e] == t[e]
  }

  lemma UnderEntry(dir: Path, n: string, p: Path)
    ensures Under(dir + [n], p) ==> Under(dir, p) && p[|dir|] == n
  {
    if Under(dir + [n], p) {
      assert p[..|dir| + 1][..|dir|] == p[..|dir|];
      assert p[|dir|] == p[..|dir| + 1][|dir|];
    }
  }

  // ------------------------------------------------------------------ temp files that could not be removed

  /** promote() works beside the link, under a name of its own that is free. */
  ghost predicate TempNames(y: Layout, t: Tree, tmpFor: Path -> Path) {
    && (forall p :: Cloud(y, p) ==>
          && Cloud(y, tmpFor(p)) && tmpFor(p) !in t && tmpFor(p) != p
          && |tmpFor(p)| == |p| && tmpFor(p)[..|p| - 1] == p[..|p| - 1])
    && (forall p, q :: Cloud(y, p) && Cloud(y, q) && p != q ==> tmpFor(p) != tmpFor(q))
  }

  function StrayOf(t: Tree, coldRoot: Path, faults: Path -> PromoteFaults, p: Path): Option<Bytes> {
    if OnDrive(t, coldRoot, p) then Stray(t, p, faults(p)) else None
  }

  function StrayNames(t: Tree, coldRoot: Path, faults: Path -> PromoteFaults, tmpFor: Path -> Path,
                      s: set<Path>): set<Path> {
    set p | p in s && StrayOf(t, coldRoot, faults, p).Some? :: tmpFor(p)
  }

  ghost function StrayBytes(t: Tree, coldRoot: Path, faults: Path -> PromoteFaults, tmpFor: Path -> Path, s: set<Path>,
                            q: Path): Bytes
    requires q in StrayNames(t, coldRoot, faults, tmpFor, s)
  {
    var p :| p in s && StrayOf(t, coldRoot, faults, p).Some? && tmpFor(p) == q;
    StrayOf(t, coldRoot, faults, p).value
  }

  /** The temp files that promotions of the links `s` left behind. */
  ghost function Strays(t: Tree, coldRoot: Path, faults: Path -> PromoteFaults, tmpFor: Path -> Path,
                        s: set<Path>): Tree {
    map q | q in StrayNames(t, coldRoot, faults, tmpFor, s) :: File(StrayBytes(t, coldRoot, faults, tmpFor, s, q))
  }

  lemma StraysExtend(y: Layout, t: Tree, coldRoot: Path, faults: Path -> PromoteFaults, tmpFor: Path -> Path,
                     s: set<Path>, p: Path)
    requires TempNames(y, t, tmpFor) && LinksOf(y, t, s) && Cloud(y, p) && p !in s
    ensures tmpFor(p) !in Strays(t, coldRoot, faults, tmpFor, s)
    ensures Strays(t, coldRoot, faults, tmpFor, s + {p})
         == WithStray(Strays(t, coldRoot, faults, tmpFor, s), tmpFor(p), StrayOf(t, coldRoot, faults, p))
  {
    hide StrayOf, TempNames, StrayBytes;
    var a, b := Strays(t, coldRoot, faults, tmpFor, s), Strays(t, coldRoot, faults, tmpFor, s + {p});
    forall l | l in s ensures tmpFor(l) != tmpFor(p) {
      OwnTempName(y, t, tmpFor, l, p);
    }
    forall l | l in s && StrayOf(t, coldRoot, faults, l).Some?
      ensures StrayBytes(t, coldRoot, faults, tmpFor, s, tmpFor(l)) == StrayOf(t, coldRoot, faults, l).value
           == StrayBytes(t, coldRoot, faults, tmpFor, s + {p}, tmpFor(l))
    {
      OwnStray(y, t, coldRoot, faults, tmpFor, s, l);
      OwnStray(y, t, coldRoot, faults, tmpFor, s + {p}, l);
    }
    if StrayOf(t, coldRoot, faults, p).Some? {
      OwnStray(y, t, coldRoot, faults, tmpFor, s + {p}, p);
    }
  }

  lemma OwnTempName(y: Layout, t: Tree, tmpFor: Path -> Path, l: Path, p: Path)
    requires TempNames(y, t, tmpFor) && Cloud(y, l) && Cloud(y, p) && l != p
    ensures tmpFor(l) != tmpFor(p)
  {
  }

  lemma OwnStray(y: Layout, t: Tree, coldRoot: Path, faults: Path -> PromoteFaults, tmpFor: Path -> Path,
                 s: set<Path>, p: Path)
    requires TempNames(y, t, tmpFor) && (forall l :: l in s ==> Cloud(y, l)) && p in s
    requires StrayOf(t, coldRoot, faults, p).Some?
    ensures tmpFor(p) in StrayNames(t, coldRoot, faults, tmpFor, s)
    ensures StrayBytes(t, coldRoot, faults, tmpFor, s, tmpFor(p)) == StrayOf(t, coldRoot, faults, p).value
  {
    hide StrayOf;
    var l :| l in s && StrayOf(t, coldRoot, faults, l).Some? && tmpFor(l) == tmpFor(p)
             && StrayBytes(t, coldRoot, faults, tmpFor, s, tmpFor(p)) == StrayOf(t, coldRoot, faults, l).value;
    assert Cloud(y, l) && Cloud(y, p);
  }

  /** Stray files are new, and in the cloud directory. */
  lemma StraysAreNewCloudFiles(y: Layout, t: Tree, coldRoot: Path, faults: Path -> PromoteFaults, tmpFor: Path -> Path,
                               s: set<Path>)
    requires TempNames(y, t, tmpFor) && LinksOf(y, t, s)
    ensures forall q :: q in Strays(t, coldRoot, faults, tmpFor, s) ==>
              q !in t && Cloud(y, q) && Strays(t, coldRoot, faults, tmpFor, s)[q].File?
  {
  }

  /** A promotion does not see the strays. */
  lemma PromotionBesideStrays(u: Tree, strays: Tree, p: Path, f: PromoteFaults)
    requires p in u && u[p].Link? && p !in strays && u[p].target !in strays
    ensures PromoteResult(u + strays, p, f) == PromoteResult(u, p, f) + strays
    ensures Stray(u + strays, p, f) == Stray(u, p, f)
    ensures Promotable(u + strays, p) <==> Promotable(u, p)
  {
  }

  // ------------------------------------------------------------------ what is left on the drive

  /** The files of `s` that can be removed. */
  function Cleared(stuck: Path -> bool, s: set<Path>): set<Path> {
    set p | p in s && !stuck(p)
  }

  lemma ClearOneMore(stuck: Path -> bool, s: set<Path>, p: Path)
    requires p !in s
    ensures Cleared(stuck, s + {p}) == Cleared(stuck, s) + (if stuck(p) then {} else {p})
    ensures |Cleared(stuck, s + {p})| == |Cleared(stuck, s)| + (if stuck(p) then 0 else 1)
    ensures |s + {p}| == |s| + 1
  {
    assert Cleared(stuck, s) + {} == Cleared(stuck, s);
  }

  /** The links the first walk visits, and the two trees of an evacuation. */
  function Visits(y: Layout, t: Tree): set<Path> {
    Walk(t, y.cloudDir, Symlinks)
  }

  function Evacuated(y: Layout, t: Tree, coldRoot: Path, faults: Path -> PromoteFaults, stuck: Path -> bool): Tree {
    var t1 := AfterMigration(t, coldRoot, faults, Visits(y, t));
    t1 - Cleared(stuck, Walk(t1, coldRoot, RealFiles))
  }

  class Evacuator {
    const service: TieredStorageService
    /** The names promote() will use, and the faults it will meet. */
    const tmpFor: Path -> Path
    const faults: Path -> PromoteFaults

    constructor (service: TieredStorageService, tmpFor: Path -> Path, faults: Path -> PromoteFaults)
      ensures this.service == service && this.tmpFor == tmpFor && this.faults == faults
    {
      this.service, this.tmpFor, this.faults := service, tmpFor, faults;
    }

    /** The tree `t` can be evacuated: tiering's invariant, and temp names that are free. */
    ghost predicate Ready(t: Tree, coldRoot: Path) {
      && Separate(service.layout) && Tiered(service.layout, t) && coldRoot in service.layout.coldRoots
      && TempNames(service.layout, t, tmpFor)
    }

    ghost function StraysOf(t: Tree, coldRoot: Path, s: set<Path>): Tree {
      Strays(t, coldRoot, faults, tmpFor, s)
    }

    /** The disk is the tree `t` with the links `s` visited. */
    ghost predicate Visited(t: Tree, coldRoot: Path, s: set<Path>)
      reads service.disk
    {
      && Ready(t, coldRoot) && s <= Visits(service.layout, t) && Tiered(service.layout, service.disk.nodes)
      && service.disk.nodes == AfterMigration(t, coldRoot, faults, s) + StraysOf(t, coldRoot, s)
    }

    /** promote() as the loop uses it. */
    method PromoteLink(p: Path) returns (size: Option<nat>)
      requires Separate(service.layout) && Tiered(service.layout, service.disk.nodes) && Cloud(service.layout, p)
      requires p in service.disk.nodes && service.disk.nodes[p].Link? && p != tmpFor(p)
      requires FreshName(service.layout, service.disk.nodes, tmpFor(p))
      modifies service.disk
      ensures Tiered(service.layout, service.disk.nodes)
      ensures var t, f := old(service.disk.nodes), faults(p);
              && service.disk.nodes == WithStray(PromoteResult(t, p, f), tmpFor(p), Stray(t, p, f))
              && size == if Promotable(t, p) && Swaps(f) && !f.rmBlob then Some(Size(t, p)) else None
    {
      hide Promotion, PromoteResult, Stray;
      ghost var t := service.disk.nodes;
      PromotionKeepsTheView(service.layout, t, p, tmpFor(p), faults(p));
      LastIsTiered(service.layout, t, Promotion(service.layout, t, p, tmpFor(p), faults(p)).trees, tmpFor(p));
      var outcome := service.Promote(p, tmpFor(p), faults(p));
      size := if outcome.Done? then Some(outcome.value) else None;
    }

    /** The body of the first loop of evacuateDrive, on a link that is as it was in `t`. */
    method MigrateLink(p: Path, coldRoot: Path, r: Report, ghost t: Tree) returns (r': Report)
      requires Separate(service.layout) && Tiered(service.layout, service.disk.nodes) && Cloud(service.layout, p)
      requires p in t && t[p].Link? && AsBefore(t, service.disk.nodes, p) && p != tmpFor(p)
      requires FreshName(service.layout, service.disk.nodes, tmpFor(p))
      modifies service.disk
      ensures Tiered(service.layout, service.disk.nodes)
      ensures var u := old(service.disk.nodes);
              service.disk.nodes ==
              if OnDrive(t, coldRoot, p)
                  then WithStray(PromoteResult(u, p, faults(p)), tmpFor(p), Stray(u, p, faults(p)))
              else u
      ensures r' == Recorded(r, t, coldRoot, faults, p)
    {
      r' := r;
      AsBeforeAgrees(t, service.disk.nodes, coldRoot, p);
      if Under(coldRoot, service.disk.nodes[p].target) {
        var size := PromoteLink(p);
        if size.Some? {
          r' := r.(migrated := r.migrated + 1, bytes := r.bytes + size.value);
        } else {
          r' := r.(errors := r.errors + 1);
        }
      }
    }

    method VisitLink(p: Path, coldRoot: Path, r: Report, ghost t: Tree, ghost s: set<Path>) returns (r': Report)
      requires Visited(t, coldRoot, s) && p in Visits(service.layout, t) && p !in s
      modifies service.disk
      ensures Visited(t, coldRoot, s + {p}) && r' == Recorded(r, t, coldRoot, faults, p)
    {
      hide AfterMigration, StraysOf, PromoteResult, Stray, Tiered, Separate, Walk, WithStray, Ready, AsBefore, OnDrive;
      hide FreshName, Recorded;
      ghost var u := service.disk.nodes;
      NextToVisit(t, coldRoot, s, p);
      r' := MigrateLink(p, coldRoot, r, t);
      VisitedOneMore(t, coldRoot, s, p, u);
    }

    /** What holds of a link about to be visited. */
    lemma NextToVisit(t: Tree, coldRoot: Path, s: set<Path>, p: Path)
      requires Visited(t, coldRoot, s) && p in Visits(service.layout, t) && p !in s
      ensures var u := service.disk.nodes;
              && p in t && t[p].Link? && Cloud(service.layout, p) && AsBefore(t, u, p)
              && p != tmpFor(p) && FreshName(service.layout, u, tmpFor(p)) && Separate(service.layout)
    {
      hide AfterMigration, Strays, AsBefore, Tiered, Separate, TempNames, FreshName, Visits;
      var a, strays := AfterMigration(t, coldRoot, faults, s), StraysOf(t, coldRoot, s);
      VisitsAreLinks(service.layout, t, s + {p});
      assert LinksOf(service.layout, t, s) && p in s + {p};
      NotYetVisited(service.layout, t, coldRoot, faults, s, p);
      NotAmongStrays(t, coldRoot, s, p);
      AsBeforeBesideStrays(t, a, strays, p);
      TempIsFree(t, coldRoot, s, p);
    }

    lemma TempIsFree(t: Tree, coldRoot: Path, s: set<Path>, p: Path)
      requires Ready(t, coldRoot) && LinksOf(service.layout, t, s) && Cloud(service.layout, p) && p !in s
      ensures FreshName(service.layout, AfterMigration(t, coldRoot, faults, s) + StraysOf(t, coldRoot, s), tmpFor(p))
      ensures p != tmpFor(p)
    {
      hide Strays;
      StraysExtend(service.layout, t, coldRoot, faults, tmpFor, s, p);
    }

    lemma NotAmongStrays(t: Tree, coldRoot: Path, s: set<Path>, p: Path)
      requires Ready(t, coldRoot) && LinksOf(service.layout, t, s) && p in t && t[p].Link? && Cloud(service.layout, p)
      ensures p !in StraysOf(t, coldRoot, s) && t[p].target !in StraysOf(t, coldRoot, s)
    {
      hide Strays;
      StraysAreNewCloudFiles(service.layout, t, coldRoot, faults, tmpFor, s);
      CloudTargetsAreCold(service.layout, t, p);
    }

    lemma AsBeforeBesideStrays(t: Tree, a: Tree, strays: Tree, p: Path)
      requires p in t && t[p].Link? && AsBefore(t, a, p) && p !in strays && t[p].target !in strays
      ensures AsBefore(t, a + strays, p)
    {
    }

    lemma VisitedOneMore(t: Tree, coldRoot: Path, s: set<Path>, p: Path, u: Tree)
      requires Ready(t, coldRoot) && s <= Visits(service.layout, t) && p in Visits(service.layout, t) && p !in s
      requires u == AfterMigration(t, coldRoot, faults, s) + StraysOf(t, coldRoot, s)
      ensures AfterMigration(t, coldRoot, faults, s + {p}) + StraysOf(t, coldRoot, s + {p})
           == if OnDrive(t, coldRoot, p)
               then WithStray(PromoteResult(u, p, faults(p)), tmpFor(p), Stray(u, p, faults(p)))
              else u
    {
      hide AfterMigration, Strays, PromoteResult, Stray, Tiered, Separate, TempNames, AsBefore, WithStray;
      var a, strays := AfterMigration(t, coldRoot, faults, s), StraysOf(t, coldRoot, s);
      VisitsAreLinks(service.layout, t, s + {p});
      assert LinksOf(service.layout, t, s);
      NotYetVisited(service.layout, t, coldRoot, faults, s, p);
      VisitIsAPromotion(service.layout, t, coldRoot, faults, s, p);
      StraysExtend(service.layout, t, coldRoot, faults, tmpFor, s, p);
      NotAmongStrays(t, coldRoot, s, p);
      SameStray(t, a, p, faults(p));
      AsBeforeAgrees(t, a, coldRoot, p);
      SameTarget(t, a, p);
      PromotionBesideStrays(a, strays, p, faults(p));
      StrayOnTop(PromoteResult(a, p, faults(p)), strays, tmpFor(p), Stray(t, p, faults(p)));
      StrayOnTop(a, strays, tmpFor(p), None);
    }

    lemma SameTarget(t: Tree, u: Tree, p: Path)
      requires p in t && t[p].Link? && AsBefore(t, u, p)
      ensures p in u && u[p] == t[p]
    {
    }

    lemma StrayOnTop(a: Tree, strays: Tree, tmp: Path, stray: Option<Bytes>)
      ensures a + WithStray(strays, tmp, stray) == WithStray(a + strays, tmp, stray)
      ensures stray.None? ==> WithStray(strays, tmp, stray) == strays
    {
    }

    lemma SameStray(t: Tree, u: Tree, p: Path, f: PromoteFaults)
      requires p in t && t[p].Link? && AsBefore(t, u, p)
      ensures Stray(u, p, f) == Stray(t, p, f)
    {
    }

    predicate InCloud(dir: Path) {
      dir == service.layout.cloudDir || Cloud(service.layout, dir)
    }

    /** Migration leaves the entries of cloud directories, and every link not yet visited, in place. */
    lemma EntriesStay(t: Tree, coldRoot: Path, s: set<Path>, dir: Path)
      requires Visited(t, coldRoot, s) && InCloud(dir) && Walk(t, dir, Symlinks) !! s
      ensures var u := service.disk.nodes;
              && Names(u, dir) == Names(t, dir)
              && forall n :: n in Names(t, dir) && Visible(n) ==> SameEntry(service.layout, t, u, dir + [n])
    {
      var a, u := AfterMigration(t, coldRoot, faults, s), service.disk.nodes;
      VisitsAreLinks(service.layout, t, s);
      OnlyBlobsGo(service.layout, t, coldRoot, faults, s);
      StraysAreNewCloudFiles(service.layout, t, coldRoot, faults, tmpFor, s);
      BelowCloud(service.layout, dir);
      forall p | |p| == |dir| + 1 && p[..|dir|] == dir ensures p in t <==> p in u {
        assert Under(dir, p);
        NoStrayHere(t, coldRoot, s, dir, p);
      }
      NamesAgree(t, u, dir);
      forall n | n in Names(t, dir) && Visible(n) ensures SameEntry(service.layout, t, u, dir + [n]) {
        NamesAreEntries(t, dir, n);
        WalkThroughEntry(t, dir, n, dir);
        assert Under(dir, dir + [n]);
      }
    }

    /** Strays sit beside the links they belong to, so a directory still to be walked has none. */
    lemma NoStrayHere(t: Tree, coldRoot: Path, s: set<Path>, dir: Path, p: Path)
      requires Ready(t, coldRoot) && s <= Visits(service.layout, t) && InCloud(dir) && Walk(t, dir, Symlinks) !! s
      requires |p| == |dir| + 1 && p[..|dir|] == dir
      ensures p !in StraysOf(t, coldRoot, s)
    {
      hide Stray, StrayOf, StrayBytes, Tiered, Separate, TempNames;
      if p in StraysOf(t, coldRoot, s) {
        var l :| l in s && tmpFor(l) == p;
        TempIsBeside(service.layout, t, l);
        assert l[..|dir|] == p[..|dir|] == dir;
        WalkableFromBetween(t, service.layout.cloudDir, dir, l);
      }
    }

    lemma TempIsBeside(y: Layout, t: Tree, l: Path)
      requires TempNames(y, t, tmpFor) && Cloud(y, l)
      ensures |tmpFor(l)| == |l| && tmpFor(l)[..|l| - 1] == l[..|l| - 1]
    {
    }

    lemma WalkableFromBetween(t: Tree, root: Path, dir: Path, l: Path)
      requires Walkable(t, root, l) && Under(dir, l) && |root| <= |dir|
      ensures Walkable(t, dir, l)
    {
    }

    lemma VisitsAreLinks(y: Layout, t: Tree, s: set<Path>)
      requires s <= Visits(y, t)
      ensures LinksOf(y, t, s)
    {
    }

    /** for await (const link of this.walkSymlinks(dir)) ... */
    method MigrateBelow(dir: Path, coldRoot: Path, r: Report, ghost t: Tree, ghost s: set<Path>) returns (r': Report)
      requires Visited(t, coldRoot, s) && Counts(r, t, coldRoot, faults, s)
      requires InCloud(dir) && Walk(t, dir, Symlinks) !! s && Walk(t, dir, Symlinks) <= Visits(service.layout, t)
      modifies service.disk
      ensures Visited(t, coldRoot, s + Walk(t, dir, Symlinks))
      ensures Counts(r', t, coldRoot, faults, s + Walk(t, dir, Symlinks)) && r'.orphansRemoved == r.orphansRemoved
      decreases AllBelow(t, dir), 2
    {
      hide Visited;
      hide Counts;
      hide Names;
      hide Through;
      hide Walk;
      hide SameEntry;
      r' := r;
      var entries := service.disk.nodes;
      EntriesStay(t, coldRoot, s, dir);
      WalkIsThroughItsNames(t, dir, Symlinks);
      var todo := Names(entries, dir);
      ghost var seen: set<string> := {};
      ghost var visited := s;
      assert visited == s + Through(t, dir, Symlinks, seen);
      while todo != {}
        invariant todo + seen == Names(t, dir) && todo !! seen
        invariant visited == s + Through(t, dir, Symlinks, seen)
        invariant Visited(t, coldRoot, visited) && Counts(r', t, coldRoot, faults, visited)
        invariant r'.orphansRemoved == r.orphansRemoved
        decreases todo
      {
        var n :| n in todo;
        r' := VisitNext(dir, n, entries, coldRoot, r', t, s, seen);
        todo := todo - {n};
        seen := seen + {n};
        visited := s + Through(t, dir, Symlinks, seen);
      }
      assert seen == Names(t, dir);
    }

    method VisitNext(dir: Path, n: string, entries: Tree, coldRoot: Path, r: Report, ghost t: Tree, ghost s: set<Path>,
                     ghost seen: set<string>)
      returns (r': Report)
      requires var visited := s + Through(t, dir, Symlinks, seen);
               Visited(t, coldRoot, visited) && Counts(r, t, coldRoot, faults, visited)
      requires InCloud(dir) && Walk(t, dir, Symlinks) !! s && Walk(t, dir, Symlinks) <= Visits(service.layout, t)
      requires n in Names(t, dir) && n !in seen
      requires Visible(n) ==> SameEntry(service.layout, t, entries, dir + [n])
      modifies service.disk
      ensures var visited := s + Through(t, dir, Symlinks, seen + {n});
              Visited(t, coldRoot, visited) && Counts(r', t, coldRoot, faults, visited)
      ensures r'.orphansRemoved == r.orphansRemoved
      decreases AllBelow(t, dir), 1
    {
      hide Visited;
      hide Counts;
      WalkOneMoreEntry(t, dir, Symlinks, seen, n);
      EntryIsNew(t, s, dir, seen, n);
      ghost var visited := s + Through(t, dir, Symlinks, seen);
      ghost var more := if Visible(n) then OfEntry(t, dir + [n], Symlinks) else {};
      r' := VisitEntry(dir, n, entries, coldRoot, r, t, visited);
      assert visited + more == s + Through(t, dir, Symlinks, seen + {n});
    }

    lemma EntryIsNew(t: Tree, s: set<Path>, dir: Path, seen: set<string>, n: string)
      requires n in Names(t, dir) && n !in seen && Walk(t, dir, Symlinks) !! s && dir + [n] in t
      ensures Visible(n) ==>
        OfEntry(t, dir + [n], Symlinks) !! s + Through(t, dir, Symlinks, seen)
            && OfEntry(t, dir + [n], Symlinks) <= Walk(t, dir, Symlinks)
    {
      NamesAreEntries(t, dir, n);
      if Visible(n) {
        forall p | p in OfEntry(t, dir + [n], Symlinks) ensures p in Walk(t, dir, Symlinks) && p[|dir|] == n {
          WalkThroughEntry(t, dir, n, p);
        }
      }
    }

    /** One entry of a directory, by the kind readdir reported for it. */
    method VisitEntry(dir: Path, n: string, entries: Tree, coldRoot: Path, r: Report, ghost t: Tree, ghost s: set<Path>)
      returns (r': Report)
      requires Visited(t, coldRoot, s) && Counts(r, t, coldRoot, faults, s) && InCloud(dir)
      requires n in Names(t, dir) && dir + [n] in t
      requires Visible(n) ==> SameEntry(service.layout, t, entries, dir + [n])
      requires Visible(n) ==>
               OfEntry(t, dir + [n], Symlinks) !! s && OfEntry(t, dir + [n], Symlinks) <= Visits(service.layout, t)
      requires t[dir + [n]].Dir? ==> AllBelow(t, dir + [n]) < AllBelow(t, dir)
      modifies service.disk
      ensures var more := if Visible(n) then OfEntry(t, dir + [n], Symlinks) else {};
              Visited(t, coldRoot, s + more) && Counts(r', t, coldRoot, faults, s + more)
      ensures r'.orphansRemoved == r.orphansRemoved
      decreases AllBelow(t, dir), 0
    {
      hide Visited;
      hide Counts;
      r' := r;
      assert s + {} == s;
      if Visible(n) {
        if entries[dir + [n]].Link? {
          CountsExtend(r, t, coldRoot, faults, s, dir + [n]);
          r' := VisitLink(dir + [n], coldRoot, r, t, s);
        } else if entries[dir + [n]].Dir? {
          r' := MigrateBelow(dir + [n], coldRoot, r, t, s);
        }
      }
    }

    /** The files `s` of the tree `t` have been visited, and nothing below `dir` has. */
    ghost predicate Sweeping(t: Tree, stuck: Path -> bool, s: set<Path>)
      reads service.disk
    {
      && (forall p :: p in s ==> p in t && t[p].File?)
      && service.disk.nodes == t - Cleared(stuck, s)
    }

    /** for await (const blob of this.walkRealFiles(dir)) ... */
    method SweepBelow(dir: Path, stuck: Path -> bool, r: Report, ghost t: Tree, ghost s: set<Path>) returns (r': Report)
      requires Sweeping(t, stuck, s) && forall p :: p in s ==> !Under(dir, p)
      modifies service.disk
      ensures Sweeping(t, stuck, s + Walk(t, dir, RealFiles))
      ensures Swept(r, r', stuck, s, s + Walk(t, dir, RealFiles))
      decreases AllBelow(t, dir), 2
    {
      hide Sweeping;
      hide Swept;
      hide Names;
      hide Through;
      hide Walk;
      r' := r;
      var entries := service.disk.nodes;
      StartSweep(t, stuck, s, dir, r);
      var todo := Names(entries, dir);
      ghost var seen: set<string> := {};
      ghost var visited := s;
      while todo != {}
        invariant todo + seen == Names(t, dir) && todo !! seen
        invariant visited == s + Through(t, dir, RealFiles, seen)
        invariant Sweeping(t, stuck, visited) && Swept(r, r', stuck, s, visited)
        decreases todo
      {
        var n :| n in todo;
        var next := SweepNext(dir, n, entries, stuck, r', t, s, seen);
        todo := todo - {n};
        seen := seen + {n};
        SweptCompose(r, r', next, stuck, s, visited, s + Through(t, dir, RealFiles, seen));
        r' := next;
        visited := s + Through(t, dir, RealFiles, seen);
      }
      assert seen == Names(t, dir);
    }

    lemma StartSweep(t: Tree, stuck: Path -> bool, s: set<Path>, dir: Path, r: Report)
      requires Sweeping(t, stuck, s) && forall p :: p in s ==> !Under(dir, p)
      ensures Names(service.disk.nodes, dir) == Names(t, dir)
      ensures forall n :: n in Names(t, dir) ==>
        dir + [n] in t && dir + [n] in service.disk.nodes && service.disk.nodes[dir + [n]] == t[dir + [n]]
      ensures s + Through(t, dir, RealFiles, {}) == s && Swept(r, r, stuck, s, s)
      ensures Through(t, dir, RealFiles, Names(t, dir)) == Walk(t, dir, RealFiles)
    {
      UnsweptEntries(t, stuck, s, dir);
      WalkIsThroughItsNames(t, dir, RealFiles);
    }

    lemma UnsweptEntries(t: Tree, stuck: Path -> bool, s: set<Path>, dir: Path)
      requires Sweeping(t, stuck, s) && forall p :: p in s ==> !Under(dir, p)
      ensures Names(service.disk.nodes, dir) == Names(t, dir)
      ensures forall n :: n in Names(t, dir) ==>
        dir + [n] in t && dir + [n] in service.disk.nodes && service.disk.nodes[dir + [n]] == t[dir + [n]]
    {
      NamesAgree(t, service.disk.nodes, dir);
      forall n | n in Names(t, dir)
        ensures dir + [n] in t && dir + [n] !in s
      {
        NamesAreEntries(t, dir, n);
        assert Under(dir, dir + [n]);
      }
    }

    method SweepNext(dir: Path, n: string, entries: Tree, stuck: Path -> bool, r: Report, ghost t: Tree,
                     ghost s: set<Path>, ghost seen: set<string>)
      returns (r': Report)
      requires Sweeping(t, stuck, s + Through(t, dir, RealFiles, seen)) && forall p :: p in s ==> !Under(dir, p)
      requires n in Names(t, dir) && n !in seen
      requires dir + [n] in t && dir + [n] in entries && entries[dir + [n]] == t[dir + [n]]
      modifies service.disk
      ensures var visited := s + Through(t, dir, RealFiles, seen + {n});
              Sweeping(t, stuck, visited) && Swept(r, r', stuck, s + Through(t, dir, RealFiles, seen), visited)
      decreases AllBelow(t, dir), 1
    {
      hide Sweeping;
      var e := dir + [n];
      WalkOneMoreEntry(t, dir, RealFiles, seen, n);
      ghost var visited := s + Through(t, dir, RealFiles, seen);
      NothingBelowTheNext(t, s, dir, seen, n);
      ghost var more := if Visible(n) then OfEntry(t, e, RealFiles) else {};
      assert visited + more == s + Through(t, dir, RealFiles, seen + {n});
      assert visited + {} == visited;
      r' := r;
      if Visible(n) {
        if entries[e].Dir? {
          r' := SweepBelow(e, stuck, r, t, visited);
        } else if entries[e].File? {
          r' := SweepFile(e, stuck, r, t, visited);
        }
      }
    }

    lemma NothingBelowTheNext(t: Tree, s: set<Path>, dir: Path, seen: set<string>, n: string)
      requires (forall p :: p in s ==> !Under(dir, p)) && n !in seen
      ensures forall p :: p in s + Through(t, dir, RealFiles, seen) ==> !Under(dir + [n], p) && p != dir + [n]
    {
      assert Under(dir, dir + [n]);
      forall p | p in s + Through(t, dir, RealFiles, seen) ensures !Under(dir + [n], p) && p != dir + [n] {
        UnderEntry(dir, n, p);
      }
    }

    /** The body of the second loop of evacuateDrive. */
    method SweepFile(p: Path, stuck: Path -> bool, r: Report, ghost t: Tree, ghost s: set<Path>) returns (r': Report)
      requires Sweeping(t, stuck, s) && p in t && t[p].File? && p !in s
      modifies service.disk
      ensures Sweeping(t, stuck, s + {p}) && Swept(r, r', stuck, s, s + {p})
    {
      ClearOneMore(stuck, s, p);
      var ok := service.disk.Apply(Removed(service.disk.nodes, p, stuck(p)));
      r' := if ok then r.(orphansRemoved := r.orphansRemoved + 1) else r.(errors := r.errors + 1);
      assert service.disk.nodes == t - Cleared(stuck, s + {p});
    }

    /** evacuateDrive(). An unknown drive is refused with an empty report. */
    method EvacuateDrive(coldRoot: Path, stuck: Path -> bool) returns (r: Report)
      requires coldRoot in service.layout.coldRoots ==> Ready(service.disk.nodes, coldRoot)
      modifies service.disk
      ensures coldRoot !in service.layout.coldRoots ==>
        r == Report(0, 0, 0, 0) && service.disk.nodes == old(service.disk.nodes)
      ensures coldRoot in service.layout.coldRoots ==>
        var t, visits := old(service.disk.nodes), Visits(service.layout, old(service.disk.nodes));
        var left := Walk(AfterMigration(t, coldRoot, faults, visits), coldRoot, RealFiles);
        && service.disk.nodes == Evacuated(service.layout, t, coldRoot, faults, stuck) + StraysOf(t, coldRoot, visits)
        && r.migrated == |Migrated(t, coldRoot, faults, visits)|
        && r.bytes == Weight(t, Migrated(t, coldRoot, faults, visits))
        && r.orphansRemoved == |Cleared(stuck, left)|
        && r.errors == |Failures(t, coldRoot, faults, visits)| + |left| - |Cleared(stuck, left)|
    {
      hide Visited;
      hide Counts;
      hide Sweeping;
      hide Swept;
      hide AfterMigration;
      hide Ready;
      hide Walk;
      hide Cleared;
      hide Migrated;
      hide Failures;
      r := Report(0, 0, 0, 0);
      if coldRoot !in service.layout.coldRoots {
        return;
      }
      ghost var t, visits := service.disk.nodes, Visits(service.layout, service.disk.nodes);
      NothingVisitedYet(coldRoot);
      r := MigrateBelow(service.layout.cloudDir, coldRoot, r, t, {});
      assert {} + visits == visits;
      MigrationDone(t, coldRoot, visits, r, stuck);
      ghost var t1, r1 := service.disk.nodes, r;
      r := SweepBelow(coldRoot, stuck, r, t1, {});
      ghost var left := Walk(t1, coldRoot, RealFiles);
      SweepBesideStrays(t, coldRoot, visits, stuck);
      assert {} + left == left;
      SweepDone(t1, stuck, left, r1, r);
    }

    lemma MigrationDone(t: Tree, coldRoot: Path, visits: set<Path>, r: Report, stuck: Path -> bool)
      requires Visited(t, coldRoot, visits) && Counts(r, t, coldRoot, faults, visits)
      ensures Ready(t, coldRoot)
      ensures service.disk.nodes == AfterMigration(t, coldRoot, faults, visits) + StraysOf(t, coldRoot, visits)
      ensures r.migrated == |Migrated(t, coldRoot, faults, visits)|
      ensures r.bytes == Weight(t, Migrated(t, coldRoot, faults, visits))
      ensures r.errors == |Failures(t, coldRoot, faults, visits)|
      ensures Sweeping(service.disk.nodes, stuck, {})
    {
      hide AfterMigration;
      hide Migrated;
      hide Failures;
      assert service.disk.nodes - Cleared(stuck, {}) == service.disk.nodes;
    }

    /** The sweep of the drive does not meet the strays, which are in the cloud directory. */
    lemma SweepBesideStrays(t: Tree, coldRoot: Path, visits: set<Path>, stuck: Path -> bool)
      requires Ready(t, coldRoot) && visits == Visits(service.layout, t)
      ensures var a, strays := AfterMigration(t, coldRoot, faults, visits), StraysOf(t, coldRoot, visits);
              var left := Walk(a, coldRoot, RealFiles);
              && Walk(a + strays, coldRoot, RealFiles) == left
              && (a + strays) - Cleared(stuck, left) == Evacuated(service.layout, t, coldRoot, faults, stuck) + strays
    {
      hide AfterMigration, Strays, Walk, Visits, Separate, Tiered, TempNames;
      var a, strays := AfterMigration(t, coldRoot, faults, visits), StraysOf(t, coldRoot, visits);
      assert LinksOf(service.layout, t, visits) by { VisitsAreLinks(service.layout, t, visits); }
      StraysAreNewCloudFiles(service.layout, t, coldRoot, faults, tmpFor, visits);
      OnlyBlobsGo(service.layout, t, coldRoot, faults, visits);
      CloudFilesAreNotOnTheDrive(service.layout, a, strays, coldRoot);
      var gone := Cleared(stuck, Walk(a, coldRoot, RealFiles));
      assert forall q :: q in gone ==> q !in strays;
      assert (a + strays) - gone == (a - gone) + strays;
    }

    lemma CloudFilesAreNotOnTheDrive(y: Layout, a: Tree, strays: Tree, coldRoot: Path)
      requires Separate(y) && coldRoot in y.coldRoots
      requires forall q :: q in strays ==> Cloud(y, q) && strays[q].File?
      requires forall q :: q in strays && q in a ==> !a[q].Dir?
      ensures Walk(a + strays, coldRoot, RealFiles) == Walk(a, coldRoot, RealFiles)
      ensures forall q :: q in Walk(a, coldRoot, RealFiles) ==> q !in strays
    {
      var i :| 0 <= i < |y.coldRoots| && y.coldRoots[i] == coldRoot;
      forall p | Under(coldRoot, p) ensures p !in strays {
        assert Cold(y, p);
      }
      assert forall q :: (q in a && a[q].Dir?) <==> (q in a + strays && (a + strays)[q].Dir?);
      forall p ensures Walkable(a + strays, coldRoot, p) <==> Walkable(a, coldRoot, p) {
      }
    }

    lemma SweepDone(t: Tree, stuck: Path -> bool, left: set<Path>, r: Report, r': Report)
      requires Sweeping(t, stuck, left) && Swept(r, r', stuck, {}, left)
      ensures service.disk.nodes == t - Cleared(stuck, left)
      ensures r'.migrated == r.migrated && r'.bytes == r.bytes
      ensures r'.orphansRemoved == r.orphansRemoved + |Cleared(stuck, left)|
      ensures r'.errors == r.errors + |left| - |Cleared(stuck, left)|
    {
      assert Cleared(stuck, {}) == {};
    }

    lemma NothingVisitedYet(coldRoot: Path)
      requires Ready(service.disk.nodes, coldRoot)
      ensures Visited(service.disk.nodes, coldRoot, {})
      ensures Counts(Report(0, 0, 0, 0), service.disk.nodes, coldRoot, faults, {})
    {
      var t := service.disk.nodes;
      assert Blobs(t, Migrated(t, coldRoot, faults, {})) == {};
      assert StraysOf(t, coldRoot, {}) == map[];
      assert AfterMigration(t, coldRoot, faults, {}) + map[] == t;
    }
  }

  /** From `s` to `s'` the sweep counted each file once: removed, or an error. */
  ghost predicate Swept(r: Report, r': Report, stuck: Path -> bool, s: set<Path>, s': set<Path>) {
    && r'.migrated == r.migrated && r'.bytes == r.bytes
    && r'.orphansRemoved - r.orphansRemoved == |Cleared(stuck, s')| - |Cleared(stuck, s)|
    && r'.errors - r.errors == |s'| - |s| - (|Cleared(stuck, s')| - |Cleared(stuck, s)|)
  }

  lemma SweptCompose(a: Report, b: Report, c: Report, stuck: Path -> bool, s: set<Path>, s': set<Path>, s'': set<Path>)
    requires Swept(a, b, stuck, s, s') && Swept(b, c, stuck, s', s'')
    ensures Swept(a, c, stuck, s, s'')
  {
  }
}
