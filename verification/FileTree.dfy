/**
 * The part of a POSIX file system that tiering relies on: regular files, directories and symbolic
 * links under absolute paths, with the primitives the service calls. A primitive gives the tree it
 * leaves and whether it succeeded; a fault makes it fail although the tree would allow it.
 */
module FileTree {
  import opened Options
  import opened Octets

  type Path = seq<string>

  datatype Node = File(data: Bytes) | Dir | Link(target: Path)

  type Tree = map<Path, Node>

  predicate Under(root: Path, p: Path) {
    |root| < |p| && p[..|root|] == root
  }

  /** What open-and-read gives: the kernel resolves a symbolic link to a regular file. */
  function Read(t: Tree, p: Path): Option<Bytes> {
    if p !in t then None
    else match t[p]
      case File(data) => Some(data)
      case Dir => None
      case Link(q) => if q in t && t[q].File? then Some(t[q].data) else None
  }

  datatype CopyFault = NoFault | Refused | Partial(garbage: Bytes)

  /** copyFile: both ends follow links; an interrupted copy leaves a damaged destination. */
  function Copied(t: Tree, src: Path, dst: Path, fault: CopyFault): (Tree, bool) {
    var to := if dst in t && t[dst].Link? then t[dst].target else dst;
    if Read(t, src).None? || (to in t && !t[to].File?) || fault.Refused? then (t, false)
    else if fault.Partial? then (t[to := File(fault.garbage)], false)
    else (t[to := File(Read(t, src).value)], true)
  }

  function Symlinked(t: Tree, target: Path, at: Path, refused: bool): (Tree, bool) {
    if at in t || refused then (t, false) else (t[at := Link(target)], true)
  }

  /** rename of a file or link: atomically replaces what is at the destination. */
  function Renamed(t: Tree, from: Path, to: Path, refused: bool): (Tree, bool) {
    if from !in t || t[from].Dir? || (to in t && t[to].Dir?) || refused then (t, false)
    else ((t - {from})[to := t[from]], true)
  }

  /** rm with force: a missing path is not an error. */
  function Removed(t: Tree, p: Path, refused: bool): (Tree, bool) {
    if p !in t then (t, true)
    else if t[p].Dir? || refused then (t, false)
    else (t - {p}, true)
  }

  /** mkdir -p */
  function MadeDirs(t: Tree, dir: Path, refused: bool): (Tree, bool) {
    if refused || exists k :: 0 <= k <= |dir| && dir[..k] in t && !t[dir[..k]].Dir? then (t, false)
    else (t + (map k | 0 <= k <= |dir| && dir[..k] !in t :: dir[..k] := Dir), true)
  }

  /** A disk, with every tree a primitive has left on it. */
  class Disk {
    var nodes: Tree
    ghost var history: seq<Tree>

    constructor (nodes: Tree)
      ensures this.nodes == nodes && history == []
    {
      this.nodes, history := nodes, [];
    }

    method Apply(effect: (Tree, bool)) returns (ok: bool)
      modifies this
      ensures nodes == effect.0 && ok == effect.1 && history == old(history) + [nodes]
    {
      nodes, ok := effect.0, effect.1;
      history := history + [nodes];
    }
  }
}
