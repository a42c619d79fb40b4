/** What the two preconditions of tiering are worth: each is exactly what keeps the view intact. */
module TieringConditions {
  import opened Options
  import opened Octets
  import opened FileTree
  import opened TieredStorage

  const NO_DEMOTE_FAULTS := DemoteFaults(false, NoFault, false, false, false, false)

  ghost predicate EveryReadKept(y: Layout, t: Tree, u: Tree) {
    forall q :: Cloud(y, q) ==> Read(t, q) == Read(u, q)
  }

  /** Every tree of the trail reads as `t` does, the temp name apart. */
  ghost predicate ViewKept(y: Layout, t: Tree, trees: seq<Tree>, tmp: Path) {
    forall i :: 0 <= i < |trees| ==> SameView(y, t, trees[i], tmp)
  }

  /** Cloud links lead onto cold drives, where there are no links. Blobs may be shared. */
  ghost predicate LinksGoCold(y: Layout, t: Tree) {
    && (forall p :: p in t && Cloud(y, p) && t[p].Link? ==> Cold(y, t[p].target))
    && (forall p :: p in t && Cold(y, p) ==> !t[p].Link?)
  }

  /** Nothing but the file system's own refusals can keep a copy from the slot. */
  predicate WayIsOpen(t: Tree, slot: Path) {
    slot != [] && MadeDirs(t, slot[..|slot| - 1], false).1 && (slot in t ==> t[slot].File?)
  }

  predicate OnSlot(y: Layout, t: Tree, q: Path, slot: Path) {
    q in t && Cloud(y, q) && t[q] == Link(slot)
  }

  // ------------------------------------------------------------------ demotion

  /** The four trees of a demotion that meets no fault. */
  lemma TreesOfADemotion(y: Layout, t: Tree, p: Path, slot: Path, tmp: Path)
    requires Separate(y) && Cloud(y, p) && Cold(y, slot) && p != tmp && FreshName(y, t, tmp)
    requires p in t && t[p].File? && WayIsOpen(t, slot)
    ensures var made := MadeDirs(t, slot[..|slot| - 1], false).0;
            var copied := made[slot := t[p]];
            Demotion(t, p, slot, tmp, NO_DEMOTE_FAULTS) ==
            Trail([made, copied, copied[tmp := Link(slot)], copied[p := Link(slot)]], Done(()))
  {
    hide MadeDirs, Separate;
    NotBoth(y, slot);
    MakingDirectories(y, t, slot, false);
    var made := MadeDirs(t, slot[..|slot| - 1], false).0;
    var copied := made[slot := t[p]];
    assert tmp !in copied;
    assert Copied(made, p, slot, NoFault) == (copied, true) by { SlotIsAsBefore(t, made, slot); }
    assert Symlinked(copied, slot, tmp, false) == (copied[tmp := Link(slot)], true);
    assert (copied[tmp := Link(slot)] - {tmp})[p := Link(slot)] == copied[p := Link(slot)];
    assert Renamed(copied[tmp := Link(slot)], tmp, p, false) == (copied[p := Link(slot)], true);
  }

  /** mkdir -p for a path makes directories above it only. */
  lemma SlotIsAsBefore(t: Tree, made: Tree, slot: Path)
    requires slot != [] && made == MadeDirs(t, slot[..|slot| - 1], false).0 && (slot in t ==> t[slot].File?)
    ensures slot in made ==> slot in t && made[slot] == t[slot]
  {
    var dir := slot[..|slot| - 1];
    assert forall k :: 0 <= k <= |dir| ==> |dir[..k]| < |slot|;
  }

  /** What a cloud path reads once the slot holds the copy. */
  lemma ReadsAfterTheCopy(y: Layout, t: Tree, u: Tree, p: Path, slot: Path, tmp: Path, data: Bytes, q: Path)
    requires Separate(y) && LinksGoCold(y, t) && Cold(y, slot) && Cloud(y, q) && q != tmp && Cloud(y, tmp)
    requires Read(t, p) == Some(data) && Cloud(y, p) && t[p].File?
    requires slot in u && u[slot] == File(data)
    requires forall r :: r in t && r != slot && r != p && r != tmp ==> r in u && u[r] == t[r]
    requires forall r :: r in u && r !in t && r != slot && r != tmp ==> u[r].Dir? && !Cloud(y, r)
    requires p in u && (u[p] == t[p] || u[p] == Link(slot))
    ensures Read(u, q) == if OnSlot(y, t, q, slot) then Some(data) else Read(t, q)
  {
    NotBoth(y, slot);
    if q in t && t[q].Link? {
      NotBoth(y, t[q].target);
    }
  }

  /**
   * A demotion changes no cloud read, at any of its steps, exactly when every link that is already
   * on its slot reads the bytes about to be written there.
   */
  lemma DemotionIsInvisibleIff(y: Layout, t: Tree, p: Path, slot: Path, tmp: Path)
    requires Separate(y) && LinksGoCold(y, t) && Cloud(y, p) && Cold(y, slot) && p != tmp && FreshName(y, t, tmp)
    requires p in t && t[p].File? && WayIsOpen(t, slot)
    ensures ViewKept(y, t, Demotion(t, p, slot, tmp, NO_DEMOTE_FAULTS).trees, tmp) <==>
            forall q :: OnSlot(y, t, q, slot) ==> Read(t, q) == Some(t[p].data)
    ensures forall i, q :: 1 <= i < 4 && OnSlot(y, t, q, slot) ==>
              Read(Demotion(t, p, slot, tmp, NO_DEMOTE_FAULTS).trees[i], q) == Some(t[p].data)
  {
    hide Demotion, MadeDirs, Separate, WayIsOpen;
    TreesOfADemotion(y, t, p, slot, tmp);
    MakingDirectories(y, t, slot, false);
    NotBoth(y, slot);
    var trees := Demotion(t, p, slot, tmp, NO_DEMOTE_FAULTS).trees;
    forall i, q | 1 <= i < 4 && Cloud(y, q) && q != tmp
      ensures Read(trees[i], q) == if OnSlot(y, t, q, slot) then Some(t[p].data) else Read(t, q)
    {
      ReadsAfterTheCopy(y, t, trees[i], p, slot, tmp, t[p].data, q);
    }
    MakingDirectoriesIsInvisible(y, t, slot, tmp);
    if ViewKept(y, t, trees, tmp) {
      assert SameView(y, t, trees[1], tmp);
    }
  }

  lemma MakingDirectoriesIsInvisible(y: Layout, t: Tree, slot: Path, tmp: Path)
    requires Separate(y) && LinksGoCold(y, t) && Cold(y, slot) && WayIsOpen(t, slot)
    ensures SameView(y, t, MadeDirs(t, slot[..|slot| - 1], false).0, tmp)
  {
    MakingDirectories(y, t, slot, false);
  }

  /**
   * Whatever may fail on the way, no step of a demotion changes a cloud read exactly when no link
   * refers to the slot: with one there, a copy that breaks off is enough.
   */
  lemma DemotionIsSafeWhateverFailsIff(y: Layout, t: Tree, p: Path, slot: Path, tmp: Path)
    requires Separate(y) && Tiered(y, t) && Cloud(y, p) && Cold(y, slot) && p != tmp && FreshName(y, t, tmp)
    requires p in t && t[p].File? && WayIsOpen(t, slot)
    ensures (forall f :: ViewKept(y, t, Demotion(t, p, slot, tmp, f).trees, tmp)) <==> Unreferenced(y, t, slot)
  {
    if Unreferenced(y, t, slot) {
      forall f ensures ViewKept(y, t, Demotion(t, p, slot, tmp, f).trees, tmp) {
        DemotionKeepsTheView(y, t, p, slot, tmp, f);
      }
    } else {
      var q :| q in t && Cloud(y, q) && t[q] == Link(slot);
      ABrokenCopyShows(y, t, p, slot, tmp, q);
    }
  }

  lemma ABrokenCopyShows(y: Layout, t: Tree, p: Path, slot: Path, tmp: Path, q: Path)
    requires Separate(y) && Cloud(y, p) && Cold(y, slot) && FreshName(y, t, tmp)
    requires p in t && t[p].File? && WayIsOpen(t, slot) && OnSlot(y, t, q, slot)
    ensures exists f :: !ViewKept(y, t, Demotion(t, p, slot, tmp, f).trees, tmp)
  {
    NotBoth(y, slot);
    MakingDirectories(y, t, slot, false);
    var garbage := if Read(t, q).Some? then Read(t, q).value + [0] else [];
    var f := NO_DEMOTE_FAULTS.(copy := Partial(garbage));
    var made := MadeDirs(t, slot[..|slot| - 1], false).0;
    SlotIsAsBefore(t, made, slot);
    var trees := Demotion(t, p, slot, tmp, f).trees;
    assert trees == [made, made[slot := File(garbage)]];
    assert Read(trees[1], q) == Some(garbage) != Read(t, q);
    assert !SameView(y, t, trees[1], tmp);
    assert !ViewKept(y, t, Demotion(t, p, slot, tmp, f).trees, tmp);
  }

  /**
   * The failing input: a demoted file is renamed (its blob stays where it was), another file is
   * created under the old name and demoted in its turn. From the copy on, the renamed file reads
   * the other's bytes.
   */
  lemma RenamedFileIsOverwritten(y: Layout, t: Tree, old_: Path, new_: Path, slot: Path, tmp: Path, data: Bytes)
    requires Separate(y) && LinksGoCold(y, t) && Cloud(y, old_) && Cloud(y, new_) && old_ != new_ && Cold(y, slot)
    requires old_ in t && t[old_] == Link(slot) && slot in t && t[slot].File? && t[slot].data != data
    requires new_ !in t && WayIsOpen(t, slot) && Cloud(y, tmp) && tmp !in t && tmp != old_ && tmp != new_
    ensures var created := Renamed(t, old_, new_, false).0[old_ := File(data)];
            var r := Demotion(created, old_, slot, tmp, NO_DEMOTE_FAULTS);
            && Read(created, new_) == Read(t, old_) != Some(data)
            && r.outcome.Done? && |r.trees| == 4
            && forall i :: 1 <= i < 4 ==> Read(r.trees[i], new_) == Some(data)
  {
    hide Demotion, MadeDirs;
    NotBoth(y, slot);
    var created := Renamed(t, old_, new_, false).0[old_ := File(data)];
    WayStaysOpen(t, created, old_, new_, slot, data);
    TreesOfADemotion(y, created, old_, slot, tmp);
    DemotionIsInvisibleIff(y, created, old_, slot, tmp);
    assert OnSlot(y, created, new_, slot);
  }

  lemma WayStaysOpen(t: Tree, created: Tree, old_: Path, new_: Path, slot: Path, data: Bytes)
    requires WayIsOpen(t, slot) && slot != old_ && slot != new_
    requires old_ in t && t[old_].Link? && new_ !in t && created == (t - {old_})[new_ := t[old_]][old_ := File(data)]
    requires forall k :: 0 <= k < |slot| ==> slot[..k] != old_ && slot[..k] != new_
    ensures WayIsOpen(created, slot)
  {
    var dir := slot[..|slot| - 1];
    forall k | 0 <= k <= |dir| ensures dir[..k] in created ==> created[dir[..k]].Dir? {
      assert dir[..k] == slot[..k];
    }
  }

  // ------------------------------------------------------------------ promotion

  predicate SharesBlob(y: Layout, t: Tree, p: Path, q: Path)
    requires p in t
  {
    q in t && Cloud(y, q) && q != p && t[q] == t[p]
  }

  /**
   * Whatever fails, no step of a promotion changes a cloud read exactly when it does not get as far
   * as removing the blob, or no other link shares it.
   */
  lemma PromotionIsInvisibleIff(y: Layout, t: Tree, p: Path, tmp: Path, f: PromoteFaults)
    requires Separate(y) && LinksGoCold(y, t) && Cloud(y, p) && Promotable(t, p) && p != tmp && FreshName(y, t, tmp)
    ensures ViewKept(y, t, Promotion(y, t, p, tmp, f).trees, tmp) <==>
            (Swaps(f) && !f.rmBlob ==> forall q :: !SharesBlob(y, t, p, q))
  {
    hide Separate;
    var target := t[p].target;
    NotBoth(y, target);
    var trees := Promotion(y, t, p, tmp, f).trees;
    var gone := Swaps(f) && !f.rmBlob;
    PromotionLeaves(y, t, p, tmp, f);
    forall i | 0 <= i < |trees| && (i < |trees| - 1 || !gone) ensures SameView(y, t, trees[i], tmp) {
      BlobStillThere(y, t, p, tmp, f, i);
    }
    if gone {
      var u := trees[|trees| - 1];
      assert u == PromotedTree(t, p);
      forall q | Cloud(y, q) && q != tmp ensures Read(u, q) == if SharesBlob(y, t, p, q) then None else Read(t, q) {
        ReadsOnceTheBlobIsGone(y, t, p, q);
      }
      if q :| SharesBlob(y, t, p, q) {
        assert Read(u, q) != Read(t, q) && q != tmp;
        assert !SameView(y, t, u, tmp);
      }
    }
  }

  lemma ReadsOnceTheBlobIsGone(y: Layout, t: Tree, p: Path, q: Path)
    requires Separate(y) && LinksGoCold(y, t) && Cloud(y, p) && Promotable(t, p) && Cloud(y, q)
    ensures Read(PromotedTree(t, p), q) == if SharesBlob(y, t, p, q) then None else Read(t, q)
  {
    NotBoth(y, t[p].target);
    if q in t && t[q].Link? {
      NotBoth(y, t[q].target);
    }
  }

  /** Until the blob goes, only the temp entry and the link itself change, and the link reads the same. */
  lemma BlobStillThere(y: Layout, t: Tree, p: Path, tmp: Path, f: PromoteFaults, i: nat)
    requires Separate(y) && LinksGoCold(y, t) && Cloud(y, p) && Promotable(t, p) && p != tmp && FreshName(y, t, tmp)
    requires var n := |Promotion(y, t, p, tmp, f).trees|; i < n && (i < n - 1 || !(Swaps(f) && !f.rmBlob))
    ensures SameView(y, t, Promotion(y, t, p, tmp, f).trees[i], tmp)
  {
    hide Separate, Promotion;
    NotBoth(y, t[p].target);
    OnlyTheLinkChanges(y, t, p, tmp, f, i);
    var u := Promotion(y, t, p, tmp, f).trees[i];
    forall q | Cloud(y, q) && q != tmp ensures Read(t, q) == Read(u, q) {
      if q in t && t[q].Link? {
        NotBoth(y, t[q].target);
      }
    }
  }

  lemma OnlyTheLinkChanges(y: Layout, t: Tree, p: Path, tmp: Path, f: PromoteFaults, i: nat)
    requires Promotable(t, p) && p != tmp && tmp !in t && t[p].target != p
    requires var n := |Promotion(y, t, p, tmp, f).trees|; i < n && (i < n - 1 || !(Swaps(f) && !f.rmBlob))
    ensures var u := Promotion(y, t, p, tmp, f).trees[i];
            && (forall r :: r in t && r != p ==> r in u && u[r] == t[r])
            && (forall r :: r in u && r != tmp ==> r in t)
            && p in u && (u[p] == t[p] || u[p] == t[t[p].target])
  {
    var copied := Copied(t, t[p].target, tmp, f.copy).0;
    assert copied == t || exists data :: copied == t[tmp := File(data)];
  }
}
