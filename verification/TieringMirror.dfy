/** Every file has a place of its own on every drive, so moving files about loses none of them. */
module TieringMirror {
  import opened Options
  import opened FileTree
  import opened TieredStorage
  import opened TieringConditions

  /** No drive's directory is inside another's. */
  ghost predicate DrivesApart(y: Layout) {
    forall a, b :: a in y.coldRoots && b in y.coldRoots && a <= b ==> a == b
  }

  /** Every cloud link leads to its own relative path on some drive. */
  ghost predicate Mirrored(y: Layout, t: Tree) {
    forall p :: p in t && Cloud(y, p) && t[p].Link? ==>
      exists root :: root in y.coldRoots && t[p].target == root + p[|y.cloudDir|..]
  }

  lemma PlacesAreDistinct(y: Layout, a: Path, b: Path, p: Path, q: Path)
    requires DrivesApart(y) && a in y.coldRoots && b in y.coldRoots && Cloud(y, p) && Cloud(y, q)
    requires a + p[|y.cloudDir|..] == b + q[|y.cloudDir|..]
    ensures a == b && p == q
  {
    var n := |y.cloudDir|;
    var slot := a + p[n..];
    assert slot[..|a|] == a && slot[..|b|] == b;
    assert |a| <= |b| ==> slot[..|b|][..|a|] == a;
    assert |b| <= |a| ==> slot[..|a|][..|b|] == b;
    assert slot[|a|..] == p[n..] && slot[|b|..] == q[n..];
    assert p == p[..n] + p[n..] && q == q[..n] + q[n..];
  }

  /** In a mirrored state no link refers to the place of a file that is not demoted, on any drive. */
  lemma TheOwnPlaceIsFree(y: Layout, t: Tree, p: Path, root: Path)
    requires DrivesApart(y) && Mirrored(y, t) && Cloud(y, p) && p in t && !t[p].Link? && root in y.coldRoots
    ensures Unreferenced(y, t, root + p[|y.cloudDir|..])
  {
    forall q | q in t && Cloud(y, q) && t[q] == Link(root + p[|y.cloudDir|..]) ensures false {
      var other :| other in y.coldRoots && t[q].target == other + q[|y.cloudDir|..];
      PlacesAreDistinct(y, root, other, p, q);
    }
  }

  // ------------------------------------------------------------------ what one move leaves of the links

  /** Beside the file, its slot and the temp name a tree has what there was, and new directories. */
  predicate ElsewhereAsBefore(t: Tree, u: Tree, p: Path, slot: Path, tmp: Path) {
    && (forall q :: q in u && q != slot && q != tmp && q != p ==> u[q].Dir? || (q in t && u[q] == t[q]))
    && (p in u && p in t ==> u[p] == t[p] || u[p] == Link(slot))
  }

  lemma CleaningUpTouches(t: Tree, u: Tree, p: Path, slot: Path, tmp: Path, f: DemoteFaults)
    requires ElsewhereAsBefore(t, u, p, slot, tmp) && p != slot && p != tmp
    ensures ElsewhereAsBefore(t, LastTree(u, CleanedUp(u, slot, tmp, f)), p, slot, tmp)
  {
  }

  lemma SwappingTouches(t: Tree, u: Tree, p: Path, slot: Path, tmp: Path, f: DemoteFaults)
    requires ElsewhereAsBefore(t, u, p, slot, tmp) && p != slot && p != tmp && slot != tmp && p in t && tmp !in u
    ensures ElsewhereAsBefore(t, LastTree(u, SwapForLink(u, p, slot, tmp, f).trees), p, slot, tmp)
  {
    hide CleanedUp, Symlinked;
    LinkOrNothing(u, slot, tmp, f.symlink);
    var linked := Symlinked(u, slot, tmp, f.symlink);
    assert ElsewhereAsBefore(t, linked.0, p, slot, tmp);
    if !linked.1 {
      CleaningUpTouches(t, linked.0, p, slot, tmp, f);
    } else {
      var swapped := Renamed(linked.0, tmp, p, f.rename);
      if !swapped.1 {
        CleaningUpTouches(t, swapped.0, p, slot, tmp, f);
      }
    }
  }

  lemma LinkOrNothing(u: Tree, slot: Path, tmp: Path, refused: bool)
    requires tmp !in u
    ensures Symlinked(u, slot, tmp, refused) == if refused then (u, false) else (u[tmp := Link(slot)], true)
  {
  }

  lemma DemotionTouches(y: Layout, t: Tree, p: Path, slot: Path, tmp: Path, f: DemoteFaults)
    requires SafeToDemote(y, t, p, slot, tmp) && slot != []
    ensures ElsewhereAsBefore(t, LastTree(t, Demotion(t, p, slot, tmp, f).trees), p, slot, tmp)
  {
    hide SwapForLink, MadeDirs, Separate, Tiered, Unreferenced;
    if p in t && !t[p].Link? {
      NotBoth(y, slot);
      MakingDirectories(y, t, slot, f.mkdir);
      var (made, ok) := MadeDirs(t, slot[..|slot| - 1], f.mkdir);
      if ok && Copied(made, p, slot, f.copy).1 {
        SlotHoldsNoLink(y, t, made, slot);
        SwappingTouches(t, Copied(made, p, slot, f.copy).0, p, slot, tmp, f);
      } else if ok {
        SlotHoldsNoLink(y, t, made, slot);
      }
    }
  }

  lemma SlotHoldsNoLink(y: Layout, t: Tree, made: Tree, slot: Path)
    requires Tiered(y, t) && Cold(y, slot)
    requires forall q :: q in made ==> made[q].Dir? || (q in t && made[q] == t[q])
    ensures slot in made ==> !made[slot].Link?
  {
  }

  /** A temp link that cannot be cleaned up still leads to the copy, which then stays as well. */
  lemma ALeftoverLinkLeadsToTheCopy(t: Tree, p: Path, slot: Path, tmp: Path, f: DemoteFaults)
    requires slot in t && !t[slot].Dir? && tmp !in t && slot != tmp && slot != p && p != tmp
    ensures var u := LastTree(t, SwapForLink(t, p, slot, tmp, f).trees);
            tmp in u ==> u[tmp] == Link(slot) && slot in u && u[slot] == t[slot]
  {
  }

  // ------------------------------------------------------------------ any sequence of moves

  /** A demotion to a drive or a promotion back, with the temp name it picked and what fails in it. */
  datatype Move =
    | Down(p: Path, root: Path, tmp: Path, demoteFaults: DemoteFaults)
    | Up(p: Path, tmp: Path, promoteFaults: PromoteFaults)

  /** The tree a move leaves, with the slot a file gets. */
  function Moved(y: Layout, t: Tree, m: Move): Tree {
    match m
    case Down(p, root, tmp, f) =>
      if !Cloud(y, p) then t else LastTree(t, Demotion(t, p, root + p[|y.cloudDir|..], tmp, f).trees)
    case Up(p, tmp, f) => LastTree(t, Promotion(y, t, p, tmp, f).trees)
  }

  function MovedAll(y: Layout, t: Tree, moves: seq<Move>): Tree
    decreases |moves|
  {
    if moves == [] then t else MovedAll(y, Moved(y, t, moves[0]), moves[1..])
  }

  /** A cloud path, a configured drive, and a temp name that nobody uses and that can be cleaned up. */
  ghost predicate Proper(y: Layout, t: Tree, m: Move) {
    && Cloud(y, m.p) && m.p != m.tmp && FreshName(y, t, m.tmp)
    && match m
       case Down(_, root, _, f) => root in y.coldRoots && !f.rmLink
       case Up(_, _, f) => !f.rmTemp
  }

  ghost predicate AllProper(y: Layout, t: Tree, moves: seq<Move>)
    decreases |moves|
  {
    moves == [] || (Proper(y, t, moves[0]) && AllProper(y, Moved(y, t, moves[0]), moves[1..]))
  }

  ghost predicate InOrder(y: Layout, t: Tree) {
    Separate(y) && DrivesApart(y) && Tiered(y, t) && Mirrored(y, t)
  }

  lemma PlaceIsCold(y: Layout, root: Path, p: Path)
    requires root in y.coldRoots && Cloud(y, p)
    ensures var slot := root + p[|y.cloudDir|..]; slot != [] && Cold(y, slot)
  {
    var i :| 0 <= i < |y.coldRoots| && y.coldRoots[i] == root;
    assert Under(y.coldRoots[i], root + p[|y.cloudDir|..]);
  }

  lemma DownKeepsOrder(y: Layout, t: Tree, m: Move)
    requires InOrder(y, t) && m.Down? && Proper(y, t, m)
    ensures InOrder(y, Moved(y, t, m)) && SameView(y, t, Moved(y, t, m), m.tmp) && m.tmp !in Moved(y, t, m)
  {
    hide SameView, Tiered, Separate, DrivesApart, SwapForLink, DemotedTree, Demotion;
    var slot := m.root + m.p[|y.cloudDir|..];
    PlaceIsCold(y, m.root, m.p);
    SameTree(y, t, m.tmp);
    if m.p in t && !t[m.p].Link? {
      TheOwnPlaceIsFree(y, t, m.p, m.root);
      DemotionKeepsTheView(y, t, m.p, slot, m.tmp, m.demoteFaults);
      LastIsKept(y, t, Demotion(t, m.p, slot, m.tmp, m.demoteFaults).trees, m.tmp);
      DemotionTouches(y, t, m.p, slot, m.tmp, m.demoteFaults);
      DownLeavesNoTemp(y, t, m, slot);
      StaysMirrored(y, t, Moved(y, t, m), m, slot);
    } else {
      NothingToDemote(t, m.p, slot, m.tmp, m.demoteFaults);
    }
  }

  lemma NothingToDemote(t: Tree, p: Path, slot: Path, tmp: Path, f: DemoteFaults)
    requires (p in t ==> t[p].Link?) && slot != []
    ensures Demotion(t, p, slot, tmp, f).trees == []
  {
  }

  lemma LastIsKept(y: Layout, t: Tree, trees: seq<Tree>, tmp: Path)
    requires Tiered(y, t) && Invisible(y, t, trees, tmp)
    ensures Tiered(y, LastTree(t, trees)) && SameView(y, t, LastTree(t, trees), tmp)
  {
  }

  lemma DownLeavesNoTemp(y: Layout, t: Tree, m: Move, slot: Path)
    requires InOrder(y, t) && m.Down? && Proper(y, t, m) && slot == m.root + m.p[|y.cloudDir|..] && slot != []
    requires SafeToDemote(y, t, m.p, slot, m.tmp) && !(m.p in t && t[m.p].Link?)
    ensures m.tmp !in Moved(y, t, m)
  {
    hide Separate, Tiered, Unreferenced, Demotion, Mirrored, DrivesApart;
    NotBoth(y, slot);
    SlotIsNoLink(y, t, slot);
    DemotionLeaves(y, t, m.p, slot, m.tmp, m.demoteFaults);
    DemotionKeepsTheView(y, t, m.p, slot, m.tmp, m.demoteFaults);
  }

  lemma SlotIsNoLink(y: Layout, t: Tree, slot: Path)
    requires Tiered(y, t) && Cold(y, slot)
    ensures slot in t ==> !t[slot].Link?
  {
  }

  lemma StaysMirrored(y: Layout, t: Tree, u: Tree, m: Move, slot: Path)
    requires Separate(y) && Mirrored(y, t) && m.Down? && m.root in y.coldRoots && Cloud(y, m.p)
    requires slot == m.root + m.p[|y.cloudDir|..] && Cold(y, slot) && m.tmp !in u
    requires ElsewhereAsBefore(t, u, m.p, slot, m.tmp) && (m.p in u ==> m.p in t)
    ensures Mirrored(y, u)
  {
  }

  lemma UpKeepsOrder(y: Layout, t: Tree, m: Move)
    requires InOrder(y, t) && m.Up? && Proper(y, t, m)
    ensures InOrder(y, Moved(y, t, m)) && SameView(y, t, Moved(y, t, m), m.tmp)
  {
    hide SameView, Tiered, Separate, DrivesApart, Promotion;
    PromotionKeepsTheView(y, t, m.p, m.tmp, m.promoteFaults);
    LastIsKept(y, t, Promotion(y, t, m.p, m.tmp, m.promoteFaults).trees, m.tmp);
    if m.p in t && t[m.p].Link? {
      CloudTargetsAreCold(y, t, m.p);
      PromotionLeaves(y, t, m.p, m.tmp, m.promoteFaults);
    } else {
      NothingToPromote(y, t, m);
    }
  }

  lemma NothingToPromote(y: Layout, t: Tree, m: Move)
    requires m.Up? && !(m.p in t && t[m.p].Link?)
    ensures Moved(y, t, m) == t
  {
  }

  /** The temp names of the moves. */
  function TempNames(moves: seq<Move>): set<Path> {
    set i | 0 <= i < |moves| :: moves[i].tmp
  }

  /**
   * Whatever is demoted, to whatever drives, and promoted back, in whatever order and whatever fails of
   * it, every cloud path reads what it did, but for the names of temp files.
   */
  lemma {:induction false} NoMoveLosesAFile(y: Layout, t: Tree, moves: seq<Move>, p: Path)
    requires InOrder(y, t) && AllProper(y, t, moves) && Cloud(y, p) && p !in TempNames(moves)
    ensures InOrder(y, MovedAll(y, t, moves)) && Read(MovedAll(y, t, moves), p) == Read(t, p)
    decreases |moves|
  {
    hide InOrder, Proper, Moved, Read;
    if moves != [] {
      var m := moves[0];
      assert m.tmp in TempNames(moves);
      forall q | q in TempNames(moves[1..]) ensures q in TempNames(moves) {
        var i :| 0 <= i < |moves[1..]| && moves[1..][i].tmp == q;
        assert moves[i + 1].tmp == q;
      }
      OneMoveKeepsOrder(y, t, m);
      NoMoveLosesAFile(y, Moved(y, t, m), moves[1..], p);
    }
  }

  lemma OneMoveKeepsOrder(y: Layout, t: Tree, m: Move)
    requires InOrder(y, t) && Proper(y, t, m)
    ensures InOrder(y, Moved(y, t, m)) && SameView(y, t, Moved(y, t, m), m.tmp)
  {
    hide InOrder, Proper, Moved, SameView;
    if m.Down? {
      DownKeepsOrder(y, t, m);
    } else {
      UpKeepsOrder(y, t, m);
    }
  }

  /**
   * Without faults a file with a way to its place is demoted: it is a link to its own path on the drive,
   * which holds its bytes.
   */
  lemma AFileGoesToItsPlace(y: Layout, t: Tree, p: Path, root: Path, tmp: Path)
    requires InOrder(y, t) && Cloud(y, p) && root in y.coldRoots && p != tmp && FreshName(y, t, tmp)
    requires p in t && t[p].File? && WayIsOpen(t, root + p[|y.cloudDir|..])
    ensures var slot := root + p[|y.cloudDir|..];
            var u := Moved(y, t, Down(p, root, tmp, NO_DEMOTE_FAULTS));
            p in u && u[p] == Link(slot) && slot in u && u[slot] == t[p]
  {
    hide Separate, Tiered, Mirrored, DrivesApart, MadeDirs;
    PlaceIsCold(y, root, p);
    NotBoth(y, root + p[|y.cloudDir|..]);
    TreesOfADemotion(y, t, p, root + p[|y.cloudDir|..], tmp);
  }

  /** Two files demoted one after the other, to the same drive or not: each is a link, and reads its own bytes. */
  lemma TwoFilesKeepTheirBytes(y: Layout, t: Tree, p: Path, q: Path, a: Path, b: Path, tmp: Path, other: Path)
    requires InOrder(y, t) && p != q && p in t && q in t && t[p].File? && t[q].File?
    requires AllProper(y, t, [Down(p, a, tmp, NO_DEMOTE_FAULTS), Down(q, b, other, NO_DEMOTE_FAULTS)])
    requires p != other && q != tmp
    ensures var u := MovedAll(y, t, [Down(p, a, tmp, NO_DEMOTE_FAULTS), Down(q, b, other, NO_DEMOTE_FAULTS)]);
            Read(u, p) == Some(t[p].data) && Read(u, q) == Some(t[q].data)
  {
    hide InOrder, Moved, Proper;
    var first, second := Down(p, a, tmp, NO_DEMOTE_FAULTS), Down(q, b, other, NO_DEMOTE_FAULTS);
    var moves := [first, second];
    assert moves[1..] == [second] && [second][1..] == [];
    forall r | r in TempNames(moves) ensures r == tmp || r == other {
      var i :| 0 <= i < |moves| && moves[i].tmp == r;
    }
    assert Proper(y, t, first) && Proper(y, Moved(y, t, first), second);
    ProperIsCloud(y, t, first);
    ProperIsCloud(y, Moved(y, t, first), second);
    NoMoveLosesAFile(y, t, moves, p);
    NoMoveLosesAFile(y, t, moves, q);
  }

  lemma ProperIsCloud(y: Layout, t: Tree, m: Move)
    requires Proper(y, t, m)
    ensures Cloud(y, m.p) && m.p != m.tmp
  {
  }
}
