/** The replication listing of a cloud directory, with its completeness bit. */
module Listing {
  import opened Options
  import opened FileTree
  import opened TieredStorage
  import opened Evacuation

  /** `path` is relative to the cloud directory. */
  datatype FileEntry = FileEntry(path: Path, size: nat)

  /** Which calls fail during one walk, and which entries readdir reports without a type. */
  datatype Syscalls = Syscalls(readdirFails: set<Path>, lstatFails: set<Path>, statFails: set<Path>, untyped: set<Path>)

  /** stat follows a link. */
  function Stat(t: Tree, p: Path): Option<Node> {
    if p !in t then None
    else match t[p]
      case Link(q) => if q in t && !t[q].Link? then Some(t[q]) else None
      case n => Some(n)
  }

  function SizeOf(n: Node): nat {
    if n.File? then |n.data| else 0
  }

  // ------------------------------------------------------------------ what a walk sees

  /** Below `dir` and reached through real directories only, whatever the names. */
  predicate Inside(t: Tree, dir: Path, p: Path) {
    Under(dir, p) && forall k :: |dir| <= k < |p| ==> p[..k] in t && t[p[..k]].Dir?
  }

  /** readdir gave no type and lstat cannot tell. */
  predicate Unclassified(sys: Syscalls, p: Path) {
    p in sys.untyped && p in sys.lstatFails
  }

  /** Below `dir`, with every directory on the way recognised and readable. */
  predicate Seen(t: Tree, dir: Path, sys: Syscalls, p: Path) {
    && Inside(t, dir, p)
    && forall k :: |dir| <= k < |p| ==> p[..k] !in sys.readdirFails && (k > |dir| ==> !Unclassified(sys, p[..k]))
  }

  /** The walk cannot account for this entry. */
  predicate Trouble(t: Tree, sys: Syscalls, p: Path)
    requires p in t
  {
    match t[p]
    case Dir => p in sys.readdirFails || Unclassified(sys, p)
    case Link(_) => Unclassified(sys, p) || p in sys.statFails || Stat(t, p).None? || Stat(t, p).value.Dir?
    case File(_) => p in sys.lstatFails || p in sys.statFails
  }

  function Listed(t: Tree, dir: Path, sys: Syscalls): set<Path> {
    set p | p in t && !t[p].Dir? && Seen(t, dir, sys, p) && !Trouble(t, sys, p)
  }

  /** `dir` could be read and nothing the walk came across was skipped. */
  ghost predicate Clean(t: Tree, dir: Path, sys: Syscalls) {
    && dir in t && t[dir].Dir? && dir !in sys.readdirFails
    && forall p :: p in t && Seen(t, dir, sys, p) ==> !Trouble(t, sys, p)
  }

  /** The entries are exactly the paths `ps`, each once and with its resolved size. */
  ghost predicate Lists(t: Tree, root: Path, files: seq<FileEntry>, ps: set<Path>) {
    && (forall i :: 0 <= i < |files| ==> root + files[i].path in ps && Sized(t, root, files[i]))
    && (forall p :: p in ps ==> exists i :: 0 <= i < |files| && root + files[i].path == p)
    && (forall i, j :: 0 <= i < j < |files| ==> files[i].path != files[j].path)
  }

  predicate Sized(t: Tree, root: Path, f: FileEntry) {
    Stat(t, root + f.path).Some? && f.size == SizeOf(Stat(t, root + f.path).value)
  }

  // ------------------------------------------------------------------ one directory at a time

  /** Seeing through an entry is seeing that directory, if it was recognised. */
  lemma SeenThroughEntry(t: Tree, dir: Path, sys: Syscalls, n: string, p: Path)
    requires dir in t && t[dir].Dir? && dir !in sys.readdirFails
    ensures Seen(t, dir, sys, dir + [n])
    ensures Seen(t, dir, sys, p) && p[|dir|] == n && p != dir + [n] <==>
            dir + [n] in t && t[dir + [n]].Dir? && !Unclassified(sys, dir + [n]) && Seen(t, dir + [n], sys, p)
  {
    var e := dir + [n];
    assert e[..|dir|] == dir;
    if Seen(t, dir, sys, p) && p[|dir|] == n && p != e {
      assert p[..|e|] == e;
    }
    if e in t && t[e].Dir? && !Unclassified(sys, e) && Seen(t, e, sys, p) {
      assert p[..|e|] == e && p[..|dir|] == dir;
    }
  }

  lemma SeenStartsWithAName(t: Tree, dir: Path, sys: Syscalls, p: Path)
    requires Seen(t, dir, sys, p) && p in t
    ensures p[|dir|] in Names(t, dir) && dir in t && t[dir].Dir? && dir !in sys.readdirFails
  {
    assert p[..|dir|] == dir;
    assert p[..|dir| + 1] in t by { assert |p| == |dir| + 1 ==> p[..|dir| + 1] == p; }
    var q := p[..|dir| + 1];
    assert q in t && |q| == |dir| + 1 && q[..|dir|] == dir && q[|dir|] == p[|dir|];
  }

  /** The entry `dir + [n]` is a recognised directory. */
  predicate Folder(t: Tree, dir: Path, sys: Syscalls, n: string) {
    dir + [n] in t && t[dir + [n]].Dir? && !Unclassified(sys, dir + [n])
  }

  /** The leaf entries of `dir` that are listed, among `names`. */
  function Leaves(t: Tree, dir: Path, sys: Syscalls, names: set<string>): set<Path> {
    set n | n in names && dir + [n] in t && !t[dir + [n]].Dir? && !Trouble(t, sys, dir + [n]) :: dir + [n]
  }

  /** Everything listed below the folders of `names`. */
  function Below(t: Tree, dir: Path, sys: Syscalls, names: set<string>): set<Path> {
    set p | p in Listed(t, dir, sys) && |p| > |dir| + 1 && p[|dir|] in names
  }

  lemma ListingIsLeavesAndFolders(t: Tree, dir: Path, sys: Syscalls, folders: set<string>)
    requires dir in t && t[dir].Dir? && dir !in sys.readdirFails
    requires forall n :: n in folders <==> n in Names(t, dir) && Folder(t, dir, sys, n)
    ensures Listed(t, dir, sys) == Leaves(t, dir, sys, Names(t, dir)) + Below(t, dir, sys, folders)
  {
    var names := Names(t, dir);
    forall p | p in Listed(t, dir, sys)
      ensures p in Leaves(t, dir, sys, names) + Below(t, dir, sys, folders)
    {
      SeenStartsWithAName(t, dir, sys, p);
      SeenThroughEntry(t, dir, sys, p[|dir|], p);
      if |p| == |dir| + 1 {
        assert p == dir + [p[|dir|]];
      }
    }
    forall p | p in Leaves(t, dir, sys, names) ensures p in Listed(t, dir, sys) {
      SeenThroughEntry(t, dir, sys, p[|dir|], p);
    }
  }

  lemma FolderListing(t: Tree, dir: Path, sys: Syscalls, done: set<string>, n: string)
    requires dir in t && t[dir].Dir? && dir !in sys.readdirFails && Folder(t, dir, sys, n) && n !in done
    ensures Below(t, dir, sys, done + {n}) == Below(t, dir, sys, done) + Listed(t, dir + [n], sys)
    ensures Below(t, dir, sys, done) !! Listed(t, dir + [n], sys)
    ensures AllBelow(t, dir + [n]) < AllBelow(t, dir)
  {
    var e := dir + [n];
    forall p ensures p in Listed(t, e, sys) <==> p in Below(t, dir, sys, done + {n}) && p[|dir|] == n {
      SeenThroughEntry(t, dir, sys, n, p);
      if p in Listed(t, e, sys) { UnderEntry(dir, n, p); }
    }
    assert e in AllBelow(t, dir) && e !in AllBelow(t, e) by { assert e[..|dir|] == dir; }
    forall p | p in AllBelow(t, e) ensures p in AllBelow(t, dir) {
      UnderEntry(dir, n, p);
    }
  }

  /** Nothing went wrong with the entry itself; for a folder that says nothing of its contents. */
  predicate EntryFine(t: Tree, dir: Path, sys: Syscalls, n: string) {
    dir + [n] in t && if t[dir + [n]].Dir? then !Unclassified(sys, dir + [n]) else !Trouble(t, sys, dir + [n])
  }

  lemma CleanByEntries(t: Tree, dir: Path, sys: Syscalls)
    requires dir in t && t[dir].Dir? && dir !in sys.readdirFails
    ensures Clean(t, dir, sys) <==>
      && (forall n :: n in Names(t, dir) ==> EntryFine(t, dir, sys, n))
      && (forall n :: n in Names(t, dir) && Folder(t, dir, sys, n) ==> Clean(t, dir + [n], sys))
  {
    forall n | n in Names(t, dir) ensures dir + [n] in t && Seen(t, dir, sys, dir + [n]) {
      NamesAreEntries(t, dir, n);
      SeenThroughEntry(t, dir, sys, n, dir);
    }
    if Clean(t, dir, sys) {
      forall n | n in Names(t, dir) && Folder(t, dir, sys, n) ensures Clean(t, dir + [n], sys) {
        assert !Trouble(t, sys, dir + [n]);
        forall p | p in t && Seen(t, dir + [n], sys, p) ensures !Trouble(t, sys, p) {
          SeenThroughEntry(t, dir, sys, n, p);
        }
      }
      forall n | n in Names(t, dir) ensures EntryFine(t, dir, sys, n) {
        assert !Trouble(t, sys, dir + [n]);
      }
    } else if (forall n :: n in Names(t, dir) ==> EntryFine(t, dir, sys, n)) {
      var p :| p in t && Seen(t, dir, sys, p) && Trouble(t, sys, p);
      SeenStartsWithAName(t, dir, sys, p);
      SeenThroughEntry(t, dir, sys, p[|dir|], p);
      assert EntryFine(t, dir, sys, p[|dir|]);
      if p == dir + [p[|dir|]] {
        assert Folder(t, dir, sys, p[|dir|]) && !Clean(t, p, sys);
      } else {
        assert !Clean(t, dir + [p[|dir|]], sys);
      }
    }
  }

  // ------------------------------------------------------------------ the walk

  lemma ListsTogether(t: Tree, root: Path, files: seq<FileEntry>, ps: set<Path>, more: seq<FileEntry>, qs: set<Path>)
    requires Lists(t, root, files, ps) && Lists(t, root, more, qs) && ps !! qs
    ensures Lists(t, root, files + more, ps + qs)
  {
    var all := files + more;
    forall p | p in ps + qs ensures exists i :: 0 <= i < |all| && root + all[i].path == p {
      if p in ps {
        var i :| 0 <= i < |files| && root + files[i].path == p;
        assert all[i] == files[i];
      } else {
        var i :| 0 <= i < |more| && root + more[i].path == p;
        assert all[|files| + i] == more[i];
      }
    }
    forall i, j | 0 <= i < j < |all| ensures all[i].path != all[j].path {
      if i < |files| <= j {
        assert root + all[i].path in ps && root + all[j].path in qs;
      }
    }
  }

  lemma ListsOne(t: Tree, root: Path, p: Path, f: FileEntry)
    requires root + f.path == p && Sized(t, root, f)
    ensures Lists(t, root, [f], {p})
  {
    assert [f][0] == f;
  }

  lemma OneMoreLeaf(t: Tree, dir: Path, sys: Syscalls, done: set<string>, n: string)
    requires n !in done
    ensures Leaves(t, dir, sys, done + {n}) ==
            if EntryFine(t, dir, sys, n) && !Folder(t, dir, sys, n) then Leaves(t, dir, sys, done) + {dir + [n]}
            else Leaves(t, dir, sys, done)
    ensures dir + [n] !in Leaves(t, dir, sys, done)
  {
    forall p | p in Leaves(t, dir, sys, done) ensures p != dir + [n] {
      assert p[|dir|] in done;
    }
  }

  datatype Verdict = PassedOver | Folded | Pushed(file: FileEntry)

  /** One turn of the loop over the entries of `dir`. */
  method ListEntry(t: Tree, root: Path, dir: Path, sys: Syscalls, n: string) returns (v: Verdict)
    requires (dir == root || Under(root, dir)) && dir + [n] in t
    ensures v.Folded? <==> Folder(t, dir, sys, n)
    ensures v.PassedOver? <==> !EntryFine(t, dir, sys, n)
    ensures v.Pushed? ==> root + v.file.path == dir + [n] && Sized(t, root, v.file)
  {
    var full := dir + [n];
    var isDir, isLink := t[full].Dir? && full !in sys.untyped, t[full].Link? && full !in sys.untyped;
    if !isDir && !isLink {
      if full in sys.lstatFails {
        return PassedOver;
      }
      isDir, isLink := t[full].Dir?, t[full].Link?;
    }
    assert root + full[|root|..] == full;
    if isLink {
      var target := if full in sys.statFails then None else Stat(t, full);
      if target.None? || target.value.Dir? {
        return PassedOver;
      }
      return Pushed(FileEntry(full[|root|..], SizeOf(target.value)));
    }
    if isDir {
      return Folded;
    }
    if full in sys.statFails {
      return PassedOver;
    }
    return Pushed(FileEntry(full[|root|..], SizeOf(t[full])));
  }

  method ListEntries(t: Tree, root: Path, dir: Path, sys: Syscalls)
    returns (files: seq<FileEntry>, folders: set<string>, skipped: nat)
    requires (dir == root || Under(root, dir)) && dir in t && t[dir].Dir?
    ensures Lists(t, root, files, Leaves(t, dir, sys, Names(t, dir)))
    ensures forall n :: n in folders <==> n in Names(t, dir) && Folder(t, dir, sys, n)
    ensures skipped == 0 <==> forall n :: n in Names(t, dir) ==> EntryFine(t, dir, sys, n)
  {
    hide Lists, Leaves, EntryFine, Folder, Trouble, Names;
    var names := Names(t, dir);
    var rest := names;
    files, folders, skipped := [], {}, 0;
    NothingListed(t, root, dir, sys);
    assert names - rest == {};
    while rest != {}
      invariant rest <= names
      invariant Lists(t, root, files, Leaves(t, dir, sys, names - rest))
      invariant forall n :: n in folders <==> n in names - rest && Folder(t, dir, sys, n)
      invariant skipped == 0 <==> forall n :: n in names - rest ==> EntryFine(t, dir, sys, n)
      decreases rest
    {
      var n :| n in rest;
      NamesAreEntries(t, dir, n);
      OneMoreLeaf(t, dir, sys, names - rest, n);
      assert names - rest + {n} == names - (rest - {n});
      var v := ListEntry(t, root, dir, sys, n);
      match v {
        case PassedOver =>
          skipped := skipped + 1;
        case Folded =>
          folders := folders + {n};
        case Pushed(f) =>
          ListsOne(t, root, dir + [n], f);
          ListsTogether(t, root, files, Leaves(t, dir, sys, names - rest), [f], {dir + [n]});
          files := files + [f];
      }
      rest := rest - {n};
    }
    assert names - rest == names;
  }

  /** The walk lists exactly the leaves it can account for, and skips something unless it saw everything. */
  method ListRecursively(t: Tree, root: Path, dir: Path, sys: Syscalls) returns (files: seq<FileEntry>, skipped: nat)
    requires dir == root || Under(root, dir)
    ensures Lists(t, root, files, Listed(t, dir, sys))
    ensures skipped == 0 <==> Clean(t, dir, sys)
    decreases AllBelow(t, dir)
  {
    hide Lists, Leaves, EntryFine, Folder, Trouble, Names, Listed, Clean, Below, AllBelow;
    if dir !in t || !t[dir].Dir? || dir in sys.readdirFails {
      UnreadableListsNothing(t, root, dir, sys);
      return [], 1;
    }
    var folders;
    files, folders, skipped := ListEntries(t, root, dir, sys);
    ghost var fine := skipped == 0;
    var rest := folders;
    ghost var leaves := Leaves(t, dir, sys, Names(t, dir));
    NothingListed(t, root, dir, sys);
    assert leaves + {} == leaves && folders - folders == {};
    while rest != {}
      invariant rest <= folders
      invariant Lists(t, root, files, leaves + Below(t, dir, sys, folders - rest))
      invariant skipped == 0 <==> fine && forall n :: n in folders - rest ==> Clean(t, dir + [n], sys)
      decreases rest
    {
      var n :| n in rest;
      FolderListing(t, dir, sys, folders - rest, n);
      LeavesAreShort(t, dir, sys, n);
      var more, skippedMore := ListRecursively(t, root, dir + [n], sys);
      ListsTogether(t, root, files, leaves + Below(t, dir, sys, folders - rest), more, Listed(t, dir + [n], sys));
      files, skipped := files + more, skipped + skippedMore;
      assert folders - rest + {n} == folders - (rest - {n});
      assert leaves + Below(t, dir, sys, folders - rest) + Listed(t, dir + [n], sys)
          == leaves + Below(t, dir, sys, folders - (rest - {n}));
      rest := rest - {n};
    }
    assert folders - rest == folders;
    ListingIsLeavesAndFolders(t, dir, sys, folders);
    CleanByEntries(t, dir, sys);
  }

  lemma NothingListed(t: Tree, root: Path, dir: Path, sys: Syscalls)
    ensures Lists(t, root, [], {}) && Leaves(t, dir, sys, {}) == {} && Below(t, dir, sys, {}) == {}
  {
  }

  lemma UnreadableListsNothing(t: Tree, root: Path, dir: Path, sys: Syscalls)
    requires dir !in t || !t[dir].Dir? || dir in sys.readdirFails
    ensures Lists(t, root, [], Listed(t, dir, sys)) && !Clean(t, dir, sys)
  {
    forall p | p in Listed(t, dir, sys) ensures false {
      SeenStartsWithAName(t, dir, sys, p);
    }
  }

  lemma LeavesAreShort(t: Tree, dir: Path, sys: Syscalls, n: string)
    ensures Leaves(t, dir, sys, Names(t, dir)) !! Listed(t, dir + [n], sys)
  {
  }
}
