/** Demotion to a cold drive and promotion back, one primitive file operation at a time. */
module TieredStorage {
  import opened Options
  import opened Octets
  import opened FileTree

  /** The cloud directory and the cold roots of the configured drives. */
  datatype Layout = Layout(cloudDir: Path, coldRoots: seq<Path>)

  predicate Cold(y: Layout, p: Path) {
    exists i :: 0 <= i < |y.coldRoots| && Under(y.coldRoots[i], p)
  }

  /** Strictly below the directory of some drive. */
  lemma ColdMeans(y: Layout, p: Path)
    ensures Cold(y, p) <==> exists root :: root in y.coldRoots && root < p
  {
    if root :| root in y.coldRoots && root < p {
      var i :| 0 <= i < |y.coldRoots| && y.coldRoots[i] == root;
      assert Under(y.coldRoots[i], p);
    }
    if i :| 0 <= i < |y.coldRoots| && Under(y.coldRoots[i], p) {
      assert y.coldRoots[i] in y.coldRoots && y.coldRoots[i] < p;
    }
  }

  predicate Cloud(y: Layout, p: Path) {
    Under(y.cloudDir, p)
  }

  /** No path is both in the cloud directory and on a cold drive. */
  ghost predicate Separate(y: Layout) {
    forall p :: !(Cloud(y, p) && Cold(y, p))
  }

  /**
   * The state tiering maintains: cloud links point onto cold drives, no two at the same blob, and
   * there are no links on the drives themselves.
   */
  ghost predicate Tiered(y: Layout, t: Tree) {
    && (forall p :: p in t && Cloud(y, p) && t[p].Link? ==> Cold(y, t[p].target))
    && (forall p, q :: p in t && q in t && p != q && Cloud(y, p) && Cloud(y, q) && t[p].Link? && t[q].Link? ==>
          t[p].target != t[q].target)
    && (forall p :: p in t && Cold(y, p) ==> !t[p].Link?)
  }

  /** No cloud link refers to the slot. */
  ghost predicate Unreferenced(y: Layout, t: Tree, slot: Path) {
    forall p :: p in t && Cloud(y, p) ==> t[p] != Link(slot)
  }

  /** Every cloud path but `tmp` reads the same bytes in both trees. */
  ghost predicate SameView(y: Layout, a: Tree, b: Tree, tmp: Path) {
    forall p :: Cloud(y, p) && p != tmp ==> Read(a, p) == Read(b, p)
  }

  /** A name no tree entry or link uses yet. */
  ghost predicate FreshName(y: Layout, t: Tree, tmp: Path) {
    Cloud(y, tmp) && tmp !in t
  }

  // ------------------------------------------------------------------ one primitive at a time

  /** Only the slot, and directories that did not exist outside the cloud directory, differ. */
  ghost predicate OnlyColdChanged(y: Layout, t: Tree, u: Tree, slot: Path) {
    && (forall p :: p in t && p != slot ==> p in u && u[p] == t[p])
    && (forall p :: p in u && p !in t && p != slot ==> u[p].Dir? && !Cloud(y, p))
  }

  /** Writing an unreferenced cold slot, or making directories, changes no cloud read. */
  lemma ColdWriteIsInvisible(y: Layout, t: Tree, u: Tree, slot: Path, tmp: Path)
    requires Separate(y) && Tiered(y, t) && Cold(y, slot) && Unreferenced(y, t, slot)
    requires OnlyColdChanged(y, t, u, slot) && (slot in u ==> !u[slot].Link?)
    ensures SameView(y, t, u, tmp) && Tiered(y, u) && Unreferenced(y, u, slot)
  {
    assert !Cloud(y, slot);
    forall p | Cloud(y, p) && p != tmp ensures Read(t, p) == Read(u, p) {
      if p in t && t[p].Link? {
        assert t[p].target != slot;
      }
    }
  }

  lemma CloudIsUpwardClosed(y: Layout, p: Path, k: nat)
    requires k <= |p|
    ensures Cloud(y, p[..k]) ==> Cloud(y, p)
  {
    if Cloud(y, p[..k]) {
      assert p[..k][..|y.cloudDir|] == p[..|y.cloudDir|];
    }
  }

  lemma PreparingTheSlot(y: Layout, t: Tree, p: Path, slot: Path, tmp: Path, mkdir: bool)
    requires Separate(y) && Tiered(y, t) && Cold(y, slot) && Unreferenced(y, t, slot) && slot != p && slot != []
    requires p in t && !t[p].Link?
    ensures var made := MadeDirs(t, slot[..|slot| - 1], mkdir).0;
            && SameView(y, t, made, tmp) && Tiered(y, made) && OnlyColdChanged(y, t, made, slot)
            && Unreferenced(y, made, slot)
            && p in made && made[p] == t[p]
  {
    var dir := slot[..|slot| - 1];
    var made := MadeDirs(t, dir, mkdir).0;
    forall q | q in made && q !in t ensures !Cloud(y, q) {
      var k :| 0 <= k <= |dir| && q == dir[..k];
      assert q == slot[..k];
      CloudIsUpwardClosed(y, slot, k);
    }
    ColdWriteIsInvisible(y, t, made, slot, tmp);
  }

  lemma FillingTheSlot(y: Layout, t: Tree, p: Path, slot: Path, tmp: Path, fault: CopyFault)
    requires Separate(y) && Tiered(y, t) && Cold(y, slot) && Unreferenced(y, t, slot) && slot != p
    requires p in t && !t[p].Link?
    ensures var copied := Copied(t, p, slot, fault);
            && SameView(y, t, copied.0, tmp) && Tiered(y, copied.0) && OnlyColdChanged(y, t, copied.0, slot)
            && Unreferenced(y, copied.0, slot)
            && p in copied.0 && copied.0[p] == t[p]
            && (copied.1 ==> t[p].File? && slot in copied.0 && copied.0[slot] == t[p])
  {
    ColdWriteIsInvisible(y, t, Copied(t, p, slot, fault).0, slot, tmp);
  }

  /** Adding a link under a fresh name. */
  lemma LinkUnderFreshName(y: Layout, t: Tree, slot: Path, tmp: Path)
    requires Separate(y) && Tiered(y, t) && Cold(y, slot) && Unreferenced(y, t, slot) && FreshName(y, t, tmp)
    ensures SameView(y, t, t[tmp := Link(slot)], tmp) && Tiered(y, t[tmp := Link(slot)])
  {
    forall p | Cloud(y, p) && p != tmp ensures Read(t, p) == Read(t[tmp := Link(slot)], p) {
      if p in t && t[p].Link? {
        assert Cold(y, t[p].target) && !Cold(y, tmp);
      }
    }
  }

  /** Copying a blob to a fresh name on the main drive, wholly or in part. */
  lemma CopyUnderFreshName(y: Layout, t: Tree, blob: Path, tmp: Path, fault: CopyFault)
    requires Separate(y) && Tiered(y, t) && FreshName(y, t, tmp)
    ensures SameView(y, t, Copied(t, blob, tmp, fault).0, tmp) && Tiered(y, Copied(t, blob, tmp, fault).0)
  {
    var u := Copied(t, blob, tmp, fault).0;
    forall p | Cloud(y, p) && p != tmp ensures Read(t, p) == Read(u, p) {
      if p in t && t[p].Link? {
        assert Cold(y, t[p].target) && !Cold(y, tmp);
      }
    }
  }

  /** Renaming the fresh entry over `p`, when both read the same, changes no cloud read. */
  lemma SwapIsInvisible(y: Layout, t: Tree, p: Path, tmp: Path)
    requires Separate(y) && Tiered(y, t) && Cloud(y, p) && Cloud(y, tmp) && p != tmp
    requires p in t && tmp in t && !t[p].Dir? && !t[tmp].Dir? && Read(t, p) == Read(t, tmp)
    ensures var u := (t - {tmp})[p := t[tmp]];
            SameView(y, t, u, tmp) && Tiered(y, u)
  {
    var u := (t - {tmp})[p := t[tmp]];
    assert !Cold(y, p) && !Cold(y, tmp);
    forall q | Cloud(y, q) && q != tmp ensures Read(t, q) == Read(u, q) {
      if q == p {
        if t[tmp].Link? { assert Cold(y, t[tmp].target); }
      } else if q in t && t[q].Link? {
        assert Cold(y, t[q].target);
      }
    }
    forall q, r | q in u && r in u && q != r && Cloud(y, q) && Cloud(y, r) && u[q].Link? && u[r].Link?
      ensures u[q].target != u[r].target
    {
      var q', r' := if q == p then tmp else q, if r == p then tmp else r;
      assert t[q'].target != t[r'].target;
    }
  }

  /** Dropping the fresh entry restores the view of everything else. */
  lemma DroppingTempIsInvisible(y: Layout, t: Tree, tmp: Path)
    requires Separate(y) && Tiered(y, t) && Cloud(y, tmp)
    ensures SameView(y, t, t - {tmp}, tmp) && Tiered(y, t - {tmp})
  {
    forall q | Cloud(y, q) && q != tmp ensures Read(t, q) == Read(t - {tmp}, q) {
      if q in t && t[q].Link? {
        assert Cold(y, t[q].target) && !Cold(y, tmp);
      }
    }
  }

  lemma ViewsCompose(y: Layout, a: Tree, b: Tree, c: Tree, tmp: Path)
    requires SameView(y, a, b, tmp) && SameView(y, b, c, tmp)
    ensures SameView(y, a, c, tmp)
  {
  }

  // ------------------------------------------------------------------ the operations, primitive by primitive

  datatype DemoteFaults = DemoteFaults(
    mkdir: bool, copy: CopyFault, symlink: bool, rename: bool, rmLink: bool, rmCopy: bool)

  datatype PromoteFaults = PromoteFaults(copy: CopyFault, rename: bool, rmTemp: bool, rmBlob: bool)

  datatype Outcome<T> = Done(value: T) | Skipped | Threw

  /** The tree each primitive of one call leaves, in order, and how the call ends. */
  datatype Trail<T> = Trail(trees: seq<Tree>, outcome: Outcome<T>)

  function LastTree(t: Tree, trees: seq<Tree>): Tree {
    if trees == [] then t else trees[|trees| - 1]
  }

  /** The catch block of demote(): the link under the temp name first, then the cold copy. */
  function CleanedUp(t: Tree, slot: Path, tmp: Path, f: DemoteFaults): seq<Tree> {
    var dropped := Removed(t, tmp, f.rmLink);
    [dropped.0] + if dropped.1 then [Removed(dropped.0, slot, f.rmCopy).0] else []
  }

  /** The try block of demote(), once the slot holds the copy. */
  function SwapForLink(t: Tree, p: Path, slot: Path, tmp: Path, f: DemoteFaults): Trail<()> {
    var linked := Symlinked(t, slot, tmp, f.symlink);
    if !linked.1 then Trail([linked.0] + CleanedUp(linked.0, slot, tmp, f), Threw)
    else
      var swapped := Renamed(linked.0, tmp, p, f.rename);
      if swapped.1 then Trail([linked.0, swapped.0], Done(()))
      else Trail([linked.0, swapped.0] + CleanedUp(swapped.0, slot, tmp, f), Threw)
  }

  /** demote(), with the slot it computes. */
  function Demotion(t: Tree, p: Path, slot: Path, tmp: Path, f: DemoteFaults): Trail<()>
    requires slot != []
  {
    if p !in t then Trail([], Threw)
    else if t[p].Link? then Trail([], Skipped)
    else
      var made := MadeDirs(t, slot[..|slot| - 1], f.mkdir);
      if !made.1 then Trail([made.0], Threw)
      else
        var copied := Copied(made.0, p, slot, f.copy);
        if !copied.1 then Trail([made.0, copied.0], Threw)
        else
          var rest := SwapForLink(copied.0, p, slot, tmp, f);
          Trail([made.0, copied.0] + rest.trees, rest.outcome)
  }

  /** promote() */
  function Promotion(y: Layout, t: Tree, p: Path, tmp: Path, f: PromoteFaults): Trail<nat> {
    if p !in t then Trail([], Threw)
    else if !t[p].Link? || !Cold(y, t[p].target) then Trail([], Skipped)
    else if t[p].target !in t then Trail([], Threw)
    else
      var copied := Copied(t, t[p].target, tmp, f.copy);
      if !copied.1 then Trail([copied.0, Removed(copied.0, tmp, f.rmTemp).0], Threw)
      else
        var swapped := Renamed(copied.0, tmp, p, f.rename);
        if !swapped.1 then Trail([copied.0, swapped.0, Removed(swapped.0, tmp, f.rmTemp).0], Threw)
        else
          var dropped := Removed(swapped.0, t[p].target, f.rmBlob);
          Trail([copied.0, swapped.0, dropped.0], if dropped.1 then Done(|Read(t, t[p].target).value|) else Threw)
  }

  // ------------------------------------------------------------------ the view they keep

  /** Every one of the trees shows the same cloud files as `before`, and is one that tiering maintains. */
  ghost predicate Invisible(y: Layout, before: Tree, trees: seq<Tree>, tmp: Path) {
    forall i :: 0 <= i < |trees| ==> SameView(y, before, trees[i], tmp) && Tiered(y, trees[i])
  }

  /** What makes a demotion safe: tiering's state, a slot no link refers to and a free temp name. */
  ghost predicate SafeToDemote(y: Layout, t: Tree, p: Path, slot: Path, tmp: Path) {
    && Separate(y) && Tiered(y, t) && Cloud(y, p) && Cold(y, slot) && p != tmp
    && Unreferenced(y, t, slot) && FreshName(y, t, tmp)
  }

  ghost predicate SafeToPromote(y: Layout, t: Tree, p: Path, tmp: Path) {
    Separate(y) && Tiered(y, t) && Cloud(y, p) && p != tmp && FreshName(y, t, tmp)
  }

  lemma ExtendInvisible(y: Layout, before: Tree, trees: seq<Tree>, was: Tree, more: seq<Tree>, tmp: Path)
    requires Invisible(y, before, trees, tmp) && SameView(y, before, was, tmp) && Invisible(y, was, more, tmp)
    ensures Invisible(y, before, trees + more, tmp)
  {
    hide SameView, Tiered;
    forall i | 0 <= i < |more| ensures SameView(y, before, more[i], tmp) {
      ViewsCompose(y, before, was, more[i], tmp);
    }
  }

  lemma SameTree(y: Layout, t: Tree, tmp: Path)
    ensures SameView(y, t, t, tmp)
  {
  }

  lemma CleaningUpIsInvisible(y: Layout, t: Tree, slot: Path, tmp: Path, f: DemoteFaults)
    requires Separate(y) && Tiered(y, t) && Cold(y, slot) && Cloud(y, tmp)
    requires tmp in t ==> t[tmp].Link?
    requires forall q :: q in t && Cloud(y, q) && q != tmp ==> t[q] != Link(slot)
    ensures var trees := CleanedUp(t, slot, tmp, f);
            && Invisible(y, t, trees, tmp)
            && (!f.rmLink ==> tmp !in LastTree(t, trees))
            && forall q :: q in t && q != slot && q != tmp ==> q in LastTree(t, trees) && LastTree(t, trees)[q] == t[q]
  {
    hide SameView, Separate, Tiered;
    var (u, ok) := Removed(t, tmp, f.rmLink);
    SameTree(y, t, tmp);
    DroppingTempIsInvisible(y, t, tmp);
    if ok {
      assert tmp !in u;
      SameTree(y, u, tmp);
      ColdWriteIsInvisible(y, u, u - {slot}, slot, tmp);
      var v := Removed(u, slot, f.rmCopy).0;
      assert SameView(y, u, v, tmp) && Tiered(y, v);
      ViewsCompose(y, t, u, v, tmp);
    }
  }

  /** The part inside the try block. */
  lemma SwappingIsInvisible(y: Layout, t: Tree, p: Path, slot: Path, tmp: Path, f: DemoteFaults)
    requires SafeToDemote(y, t, p, slot, tmp) && p in t && !t[p].Link?
    requires slot in t && t[slot].File? && Read(t, p) == Some(t[slot].data)
    ensures var r := SwapForLink(t, p, slot, tmp, f);
            && Invisible(y, t, r.trees, tmp) && r.trees != [] && !r.outcome.Skipped?
            && (r.outcome.Done? ==> LastTree(t, r.trees) == t[p := Link(slot)])
            && (r.outcome.Threw? ==> p in LastTree(t, r.trees) && LastTree(t, r.trees)[p] == t[p])
            && (r.outcome.Threw? && !f.rmLink ==> tmp !in LastTree(t, r.trees))
  {
    hide SameView, Tiered, Separate, CleanedUp, Invisible;
    assert !Cloud(y, slot) && slot != tmp && slot != p by { NotBoth(y, slot); }
    CleanUpNeeds(y, t, slot, tmp);
    var linked := Symlinked(t, slot, tmp, f.symlink);
    if !linked.1 {
      CleaningUpIsInvisible(y, t, slot, tmp, f);
      OneThenMore(y, t, t, CleanedUp(t, slot, tmp, f), tmp);
    } else {
      LinkUnderFreshName(y, t, slot, tmp);
      SwapIsInvisible(y, linked.0, p, tmp);
      var swapped := Renamed(linked.0, tmp, p, f.rename);
      ViewsCompose(y, t, linked.0, (linked.0 - {tmp})[p := linked.0[tmp]], tmp);
      if swapped.1 {
        TwoTrees(y, t, linked.0, swapped.0, tmp);
        assert (t[tmp := Link(slot)] - {tmp})[p := Link(slot)] == t[p := Link(slot)];
      } else {
        CleaningUpIsInvisible(y, swapped.0, slot, tmp, f);
        TwoTrees(y, t, linked.0, swapped.0, tmp);
        ExtendInvisible(y, t, [linked.0, swapped.0], swapped.0, CleanedUp(swapped.0, slot, tmp, f), tmp);
      }
    }
  }

  lemma NotBoth(y: Layout, p: Path)
    requires Separate(y) && Cold(y, p)
    ensures forall q :: Cloud(y, q) ==> q != p
  {
  }

  lemma CleanUpNeeds(y: Layout, t: Tree, slot: Path, tmp: Path)
    requires Unreferenced(y, t, slot) && FreshName(y, t, tmp)
    ensures forall q :: q in t && Cloud(y, q) && q != tmp ==> t[q] != Link(slot)
    ensures Cloud(y, tmp) && tmp !in t
  {
  }

  lemma OneThenMore(y: Layout, before: Tree, was: Tree, more: seq<Tree>, tmp: Path)
    requires SameView(y, before, was, tmp) && Tiered(y, was) && Invisible(y, was, more, tmp)
    ensures Invisible(y, before, [was] + more, tmp)
  {
    ExtendInvisible(y, before, [was], was, more, tmp);
  }

  lemma TwoTrees(y: Layout, before: Tree, a: Tree, b: Tree, tmp: Path)
    requires SameView(y, before, a, tmp) && Tiered(y, a) && SameView(y, before, b, tmp) && Tiered(y, b)
    ensures Invisible(y, before, [a, b], tmp)
  {
  }

  /** A whole demotion: no tree any primitive leaves, on any branch, changes what a cloud path reads. */
  lemma DemotionKeepsTheView(y: Layout, t: Tree, p: Path, slot: Path, tmp: Path, f: DemoteFaults)
    requires SafeToDemote(y, t, p, slot, tmp) && slot != []
    ensures var r := Demotion(t, p, slot, tmp, f);
            && Invisible(y, t, r.trees, tmp)
            && (r.outcome.Threw? && p in t ==> p in LastTree(t, r.trees) && LastTree(t, r.trees)[p] == t[p])
            && (r.outcome.Threw? && !f.rmLink ==> tmp !in LastTree(t, r.trees))
  {
    hide SameView, Tiered, Separate, SwapForLink, Unreferenced, MadeDirs;
    if p in t && !t[p].Link? {
      NotBoth(y, slot);
      assert slot != p && slot != tmp;
      PreparingTheSlot(y, t, p, slot, tmp, f.mkdir);
      var (made, ok) := MadeDirs(t, slot[..|slot| - 1], f.mkdir);
      assert tmp !in made by { NewIsNotCloud(y, t, made, slot, tmp); }
      if ok {
        FillingTheSlot(y, made, p, slot, tmp, f.copy);
        var copied := Copied(made, p, slot, f.copy).0;
        assert tmp !in copied by { NewIsNotCloud(y, made, copied, slot, tmp); }
        ViewsCompose(y, t, made, copied, tmp);
        TwoTrees(y, t, made, copied, tmp);
        if Copied(made, p, slot, f.copy).1 {
          SwappingIsInvisible(y, copied, p, slot, tmp, f);
          ExtendInvisible(y, t, [made, copied], copied, SwapForLink(copied, p, slot, tmp, f).trees, tmp);
        }
      }
    }
  }

  lemma NewIsNotCloud(y: Layout, t: Tree, u: Tree, slot: Path, tmp: Path)
    requires OnlyColdChanged(y, t, u, slot) && Cloud(y, tmp) && tmp != slot && tmp !in t
    ensures tmp !in u
  {
  }

  /**
   * What a demotion that succeeds leaves, whoever else may refer to the slot: the link, the bytes
   * behind it, and nothing else but directories outside the cloud directory.
   */
  lemma DemotionLeaves(y: Layout, t: Tree, p: Path, slot: Path, tmp: Path, f: DemoteFaults)
    requires Separate(y) && Cloud(y, p) && Cold(y, slot) && p != tmp && FreshName(y, t, tmp) && slot != []
    requires slot in t ==> !t[slot].Link?
    ensures var r := Demotion(t, p, slot, tmp, f);
            && (r.outcome.Skipped? <==> p in t && t[p].Link?)
            && (r.outcome.Skipped? ==> r.trees == [])
            && (r.outcome.Done? ==>
                  Read(t, p).Some? && DemotedTree(y, t, LastTree(t, r.trees), p, slot, Read(t, p).value))
  {
    hide Separate, SwapForLink, MadeDirs, DemotedTree;
    if p in t && !t[p].Link? {
      NotBoth(y, slot);
      MakingDirectories(y, t, slot, f.mkdir);
      var (made, ok) := MadeDirs(t, slot[..|slot| - 1], f.mkdir);
      if ok && Copied(made, p, slot, f.copy).1 {
        CopyThenSwapLeaves(y, t, made, p, slot, tmp, f);
      }
    }
  }

  lemma CopyThenSwapLeaves(y: Layout, t: Tree, made: Tree, p: Path, slot: Path, tmp: Path, f: DemoteFaults)
    requires p in t && !t[p].Link? && slot != p && slot != tmp && p != tmp && tmp !in made
             && Copied(made, p, slot, f.copy).1
    requires slot in made ==> !made[slot].Link?
    requires forall q :: q in t ==> q in made && made[q] == t[q]
    requires forall q :: q in made && q !in t ==> made[q].Dir? && !Cloud(y, q)
    ensures var copied := Copied(made, p, slot, f.copy).0;
            var r := SwapForLink(copied, p, slot, tmp, f);
            && Read(t, p).Some? && !r.outcome.Skipped? && r.trees != []
            && (r.outcome.Done? ==> DemotedTree(y, t, LastTree(copied, r.trees), p, slot, Read(t, p).value))
  {
    hide CleanedUp, Symlinked, Renamed;
    var copied := Copied(made, p, slot, f.copy).0;
    assert copied == made[slot := t[p]] && t[p].File?;
    LinkedUnderItsName(copied, p, slot, tmp, f);
  }

  /** A link made under a fresh name and renamed is the link under the final name. */
  lemma LinkedUnderItsName(t: Tree, p: Path, slot: Path, tmp: Path, f: DemoteFaults)
    requires p != tmp && tmp !in t
    ensures var linked := Symlinked(t, slot, tmp, f.symlink);
            linked.1 && Renamed(linked.0, tmp, p, f.rename).1 ==>
              Renamed(linked.0, tmp, p, f.rename).0 == t[p := Link(slot)]
  {
  }

  lemma MakingDirectories(y: Layout, t: Tree, slot: Path, refused: bool)
    requires Separate(y) && Cold(y, slot) && slot != []
    ensures var made := MadeDirs(t, slot[..|slot| - 1], refused).0;
            && (forall q :: q in t ==> q in made && made[q] == t[q])
            && (forall q :: q in made && q !in t ==> made[q].Dir? && !Cloud(y, q))
  {
    var dir := slot[..|slot| - 1];
    var made := MadeDirs(t, dir, refused).0;
    forall q | q in made && q !in t ensures !Cloud(y, q) {
      var k :| 0 <= k <= |dir| && q == dir[..k];
      assert q == slot[..k];
      CloudIsUpwardClosed(y, slot, k);
    }
  }

  // ------------------------------------------------------------------ promotion

  /** A link whose blob is there. */
  predicate Promotable(t: Tree, p: Path) {
    p in t && t[p].Link? && t[p].target in t && t[t[p].target].File?
  }

  function PromotedTreeKeepingBlob(t: Tree, p: Path): Tree
    requires Promotable(t, p)
  {
    t[p := t[t[p].target]]
  }

  function PromotedTree(t: Tree, p: Path): Tree
    requires Promotable(t, p)
  {
    PromotedTreeKeepingBlob(t, p) - {t[p].target}
  }

  predicate Swaps(f: PromoteFaults) {
    f.copy.NoFault? && !f.rename
  }

  /** What a failed promotion leaves under the temp name, if that cannot be removed either. */
  function Stray(t: Tree, p: Path, f: PromoteFaults): Option<Bytes> {
    if !Promotable(t, p) || Swaps(f) || f.copy.Refused? || !f.rmTemp then None
    else if f.copy.Partial? then Some(f.copy.garbage)
    else Some(t[t[p].target].data)
  }

  /** The tree apart from a stray temp file. */
  function PromoteResult(t: Tree, p: Path, f: PromoteFaults): Tree {
    if !Promotable(t, p) || !Swaps(f) then t
    else if f.rmBlob then PromotedTreeKeepingBlob(t, p)
    else PromotedTree(t, p)
  }

  function WithStray(t: Tree, tmp: Path, stray: Option<Bytes>): Tree {
    if stray.Some? then t[tmp := File(stray.value)] else t
  }

  /**
   * What the primitives of a promotion leave, whoever else may refer to the blob, and how it ends.
   */
  lemma PromotionLeaves(y: Layout, t: Tree, p: Path, tmp: Path, f: PromoteFaults)
    requires Separate(y) && Cloud(y, p) && p != tmp && FreshName(y, t, tmp)
    requires p in t && t[p].Link? && Cold(y, t[p].target) && (t[p].target in t ==> !t[t[p].target].Link?)
    ensures var r := Promotion(y, t, p, tmp, f);
            && LastTree(t, r.trees) == WithStray(PromoteResult(t, p, f), tmp, Stray(t, p, f))
            && (r.outcome.Done? <==> Promotable(t, p) && Swaps(f) && !f.rmBlob)
            && (r.outcome.Done? ==> r.outcome.value == |Read(t, p).value|)
            && !r.outcome.Skipped?
  {
    hide Separate;
    NotBoth(y, t[p].target);
    if t[p].target in t {
      var copied := Copied(t, t[p].target, tmp, f.copy).0;
      assert copied - {tmp} == t;
      if t[t[p].target].File? {
        assert (t[tmp := t[t[p].target]] - {tmp})[p := t[t[p].target]] == t[p := t[t[p].target]];
      }
    }
  }

  /** A whole promotion: no tree any primitive leaves changes what a cloud path reads. */
  lemma PromotionKeepsTheView(y: Layout, t: Tree, p: Path, tmp: Path, f: PromoteFaults)
    requires SafeToPromote(y, t, p, tmp)
    ensures Invisible(y, t, Promotion(y, t, p, tmp, f).trees, tmp)
  {
    hide SameView, Tiered, Separate;
    if p in t && t[p].Link? && t[p].target in t {
      CloudTargetsAreCold(y, t, p);
      var target := t[p].target;
      var (copied, ok) := Copied(t, target, tmp, f.copy);
      CopyUnderFreshName(y, t, target, tmp, f.copy);
      SameTree(y, t, tmp);
      if !ok {
        assert copied - {tmp} == t;
        var cleaned := Removed(copied, tmp, f.rmTemp).0;
        assert cleaned == t || cleaned == copied;
        TwoTrees(y, t, copied, cleaned, tmp);
      } else {
        assert copied == t[tmp := t[target]];
        SwapIsInvisible(y, copied, p, tmp);
        var (swapped, moved) := Renamed(copied, tmp, p, f.rename);
        assert (copied - {tmp})[p := copied[tmp]] == t[p := t[target]];
        ViewsCompose(y, t, copied, t[p := t[target]], tmp);
        TwoTrees(y, t, copied, swapped, tmp);
        if !moved {
          assert copied - {tmp} == t;
          OneMoreTree(y, t, [copied, swapped], Removed(swapped, tmp, f.rmTemp).0, tmp);
        } else {
          NoLongerReferenced(y, t, p);
          SameTree(y, swapped, tmp);
          ColdWriteIsInvisible(y, swapped, swapped - {target}, target, tmp);
          var dropped := Removed(swapped, target, f.rmBlob).0;
          assert SameView(y, swapped, dropped, tmp) && Tiered(y, dropped);
          ViewsCompose(y, t, swapped, dropped, tmp);
          OneMoreTree(y, t, [copied, swapped], dropped, tmp);
        }
      }
    }
  }

  lemma LastIsTiered(y: Layout, t: Tree, trees: seq<Tree>, tmp: Path)
    requires Tiered(y, t) && Invisible(y, t, trees, tmp)
    ensures Tiered(y, LastTree(t, trees))
  {
  }

  lemma OneMoreTree(y: Layout, before: Tree, trees: seq<Tree>, u: Tree, tmp: Path)
    requires Invisible(y, before, trees, tmp) && SameView(y, before, u, tmp) && Tiered(y, u)
    ensures Invisible(y, before, trees + [u], tmp)
  {
  }

  lemma CloudTargetsAreCold(y: Layout, t: Tree, p: Path)
    requires Separate(y) && Tiered(y, t) && p in t && Cloud(y, p) && t[p].Link?
    ensures Cold(y, t[p].target) && !Cloud(y, t[p].target) && (t[p].target in t ==> !t[t[p].target].Link?)
  {
  }

  /** Once the only link to a blob is a file again, nobody refers to it. */
  lemma NoLongerReferenced(y: Layout, t: Tree, p: Path)
    requires Tiered(y, t) && Cloud(y, p) && p in t && t[p].Link? && t[p].target in t && !t[t[p].target].Link?
    ensures Unreferenced(y, t[p := t[t[p].target]], t[p].target)
  {
  }

  /** `p` is now a link to the slot, which holds its bytes; nothing else changed but new directories. */
  ghost predicate DemotedTree(y: Layout, t: Tree, u: Tree, p: Path, slot: Path, data: Bytes) {
    && p in u && u[p] == Link(slot) && slot in u && u[slot] == File(data)
    && (forall q :: q in t && q != slot && q != p ==> q in u && u[q] == t[q])
    && (forall q :: q in u && q !in t && q != slot ==> u[q].Dir? && !Cloud(y, q))
  }

  // ------------------------------------------------------------------ the service

  class TieredStorageService {
    const layout: Layout
    const disk: Disk

    constructor (layout: Layout, disk: Disk)
      ensures this.layout == layout && this.disk == disk
    {
      this.layout, this.disk := layout, disk;
    }

    lemma SlotIsCold(coldRoot: Path, p: Path)
      requires coldRoot in layout.coldRoots && Cloud(layout, p)
      ensures var slot := coldRoot + p[|layout.cloudDir|..]; slot != [] && Cold(layout, slot)
    {
      var i :| 0 <= i < |layout.coldRoots| && layout.coldRoots[i] == coldRoot;
      assert Under(layout.coldRoots[i], coldRoot + p[|layout.cloudDir|..]);
    }

    /**
     * demote(). The slot is the path's own place on the drive, directories included. With that
     * unreferenced and a fresh temp name, no intermediate tree, on any branch, changes what a cloud
     * path reads; on success the bytes are on the drive.
     */
    method Demote(p: Path, coldRoot: Path, tmp: Path, faults: DemoteFaults) returns (r: Outcome<()>)
      requires coldRoot in layout.coldRoots && Cloud(layout, p)
      modifies disk
      ensures coldRoot + p[|layout.cloudDir|..] != []
      ensures var trail := Demotion(old(disk.nodes), p, coldRoot + p[|layout.cloudDir|..], tmp, faults);
              && disk.history == old(disk.history) + trail.trees && disk.nodes == LastTree(old(disk.nodes), trail.trees)
              && r == trail.outcome
      ensures SafeToDemote(layout, old(disk.nodes), p, coldRoot + p[|layout.cloudDir|..], tmp) ==>
        && Invisible(layout, old(disk.nodes), disk.history[|old(disk.history)|..], tmp)
        && (r.Skipped? ==> disk.nodes == old(disk.nodes))
        && (r.Done? ==> Read(old(disk.nodes), p).Some? && DemotedTree(layout, old(disk.nodes), disk.nodes, p,
              coldRoot + p[|layout.cloudDir|..], Read(old(disk.nodes), p).value))
        && (r.Threw? && p in old(disk.nodes) ==> p in disk.nodes && disk.nodes[p] == old(disk.nodes[p]))
        && (r.Threw? && !faults.rmLink ==> tmp !in disk.nodes)
    {
      hide SafeToDemote, Invisible, DemotedTree, MadeDirs, Cold;
      ghost var t, before := disk.nodes, disk.history;
      SlotIsCold(coldRoot, p);
      var rel := p[|layout.cloudDir|..];
      var slot := coldRoot + rel;
      r := DemoteTo(p, slot, tmp, faults);
      assert disk.history[|before|..] == Demotion(t, p, slot, tmp, faults).trees;
      if SafeToDemote(layout, t, p, slot, tmp) {
        DemotionKeepsTheView(layout, t, p, slot, tmp, faults);
        SafeMeansFree(layout, t, p, slot, tmp);
        DemotionLeaves(layout, t, p, slot, tmp, faults);
      }
    }

    lemma SafeMeansFree(y: Layout, t: Tree, p: Path, slot: Path, tmp: Path)
      requires SafeToDemote(y, t, p, slot, tmp)
      ensures Separate(y) && Cloud(y, p) && Cold(y, slot) && p != tmp && FreshName(y, t, tmp)
      ensures slot in t ==> !t[slot].Link?
    {
    }

    method DemoteTo(p: Path, slot: Path, tmp: Path, faults: DemoteFaults) returns (r: Outcome<()>)
      requires slot != []
      modifies disk
      ensures var trail := Demotion(old(disk.nodes), p, slot, tmp, faults);
              && disk.history == old(disk.history) + trail.trees && disk.nodes == LastTree(old(disk.nodes), trail.trees)
              && r == trail.outcome
    {
      hide MadeDirs, Copied, SwapForLink;
      if p !in disk.nodes {
        return Threw;
      }
      if disk.nodes[p].Link? {
        return Skipped;
      }
      var ok := disk.Apply(MadeDirs(disk.nodes, slot[..|slot| - 1], faults.mkdir));
      if !ok {
        return Threw;
      }
      ok := disk.Apply(Copied(disk.nodes, p, slot, faults.copy));
      if !ok {
        return Threw;
      }
      r := SwapIn(p, slot, tmp, faults);
    }

    /** The try block of demote(), and its catch. */
    method SwapIn(p: Path, slot: Path, tmp: Path, faults: DemoteFaults) returns (r: Outcome<()>)
      modifies disk
      ensures var trail := SwapForLink(old(disk.nodes), p, slot, tmp, faults);
              && disk.history == old(disk.history) + trail.trees && disk.nodes == LastTree(old(disk.nodes), trail.trees)
              && r == trail.outcome && trail.trees != []
    {
      hide Symlinked, Renamed, CleanedUp;
      var ok := disk.Apply(Symlinked(disk.nodes, slot, tmp, faults.symlink));
      if ok {
        ok := disk.Apply(Renamed(disk.nodes, tmp, p, faults.rename));
        if ok {
          return Done(());
        }
      }
      CleanUp(slot, tmp, faults);
      return Threw;
    }

    method CleanUp(slot: Path, tmp: Path, faults: DemoteFaults)
      modifies disk
      ensures var trees := CleanedUp(old(disk.nodes), slot, tmp, faults);
              && trees != [] && disk.history == old(disk.history) + trees
              && disk.nodes == LastTree(old(disk.nodes), trees)
    {
      var ok := disk.Apply(Removed(disk.nodes, tmp, faults.rmLink));
      if ok {
        ok := disk.Apply(Removed(disk.nodes, slot, faults.rmCopy));
      }
    }

    /**
     * promote(). With no blob shared and a fresh temp name, no intermediate tree changes what a
     * cloud path reads; on success the file is back, the blob is gone and its size is returned.
     */
    method Promote(p: Path, tmp: Path, faults: PromoteFaults) returns (r: Outcome<nat>)
      modifies disk
      ensures var trail := Promotion(layout, old(disk.nodes), p, tmp, faults);
              && disk.history == old(disk.history) + trail.trees && disk.nodes == LastTree(old(disk.nodes), trail.trees)
              && r == trail.outcome
      ensures r.Skipped? <==>
                && p in old(disk.nodes)
                && (!old(disk.nodes[p]).Link?
                    || forall root :: root in layout.coldRoots ==> !(root < old(disk.nodes[p]).target))
      ensures SafeToPromote(layout, old(disk.nodes), p, tmp) ==>
        && Invisible(layout, old(disk.nodes), disk.history[|old(disk.history)|..], tmp)
        && (p in old(disk.nodes) && old(disk.nodes[p]).Link? ==>
              && disk.nodes
                  == WithStray(PromoteResult(old(disk.nodes), p, faults), tmp, Stray(old(disk.nodes), p, faults))
              && (r.Done? <==> Promotable(old(disk.nodes), p) && Swaps(faults) && !faults.rmBlob)
              && (r.Done? ==> r.value == |Read(old(disk.nodes), p).value|))
    {
      hide SafeToPromote, Invisible, Stray, PromoteResult, Copied;
      ghost var t, before := disk.nodes, disk.history;
      r := PromoteFrom(p, tmp, faults);
      if p in t && t[p].Link? {
        ColdMeans(layout, t[p].target);
      }
      assert disk.history[|before|..] == Promotion(layout, t, p, tmp, faults).trees;
      if SafeToPromote(layout, t, p, tmp) {
        PromotionKeepsTheView(layout, t, p, tmp, faults);
        SafePromotionLeaves(t, p, tmp, faults);
      }
    }

    lemma SafePromotionLeaves(t: Tree, p: Path, tmp: Path, f: PromoteFaults)
      requires SafeToPromote(layout, t, p, tmp)
      ensures p in t && t[p].Link? ==>
        var r := Promotion(layout, t, p, tmp, f);
        && LastTree(t, r.trees) == WithStray(PromoteResult(t, p, f), tmp, Stray(t, p, f))
        && (r.outcome.Done? <==> Promotable(t, p) && Swaps(f) && !f.rmBlob)
        && (r.outcome.Done? ==> r.outcome.value == |Read(t, p).value|)
    {
      hide Promotion, PromoteResult, Stray;
      if p in t && t[p].Link? {
        CloudTargetsAreCold(layout, t, p);
        PromotionLeaves(layout, t, p, tmp, f);
      }
    }

    method PromoteFrom(p: Path, tmp: Path, faults: PromoteFaults) returns (r: Outcome<nat>)
      modifies disk
      ensures var trail := Promotion(layout, old(disk.nodes), p, tmp, faults);
              && disk.history == old(disk.history) + trail.trees && disk.nodes == LastTree(old(disk.nodes), trail.trees)
              && r == trail.outcome
    {
      hide Renamed, Removed, Cold;
      if p !in disk.nodes {
        return Threw;
      }
      if !disk.nodes[p].Link? || !Cold(layout, disk.nodes[p].target) {
        return Skipped;
      }
      var target := disk.nodes[p].target;
      if target !in disk.nodes {
        return Threw;
      }
      var source := Read(disk.nodes, target);
      var ok := disk.Apply(Copied(disk.nodes, target, tmp, faults.copy));
      if ok {
        ok := disk.Apply(Renamed(disk.nodes, tmp, p, faults.rename));
      }
      if !ok {
        var _ := disk.Apply(Removed(disk.nodes, tmp, faults.rmTemp));
        return Threw;
      }
      ok := disk.Apply(Removed(disk.nodes, target, faults.rmBlob));
      r := if ok then Done(|source.value|) else Threw;
    }
  }
}
