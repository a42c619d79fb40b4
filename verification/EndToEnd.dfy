/** Across components: tiering on the master seen from a replica, and a pass over the encrypted wire. */
module EndToEnd {
  import opened Options
  import opened Octets
  import opened FileTree
  import opened TieredStorage
  import opened Listing
  import opened ListingLaws
  import S = Sync
  import L = SyncLaws
  import C = SyncConvergence
  import Wire = Decrypt

  /** A replica that had nothing to fetch or delete has nothing to fetch or delete from a listing of the same files. */
  lemma SameFilesCauseNoTransfer(r: Tree, root: Path, mine: seq<FileEntry>, files: seq<FileEntry>,
                                 others: seq<FileEntry>,
                                 ignored: Path -> bool, header: Option<string>, net: Path -> S.Fetch, io: S.Faults)
    requires S.Without(files, mine, ignored) == [] && S.Without(mine, files, ignored) == []
    requires forall f :: f in files <==> f in others
    ensures S.Pass(r, root, mine, S.Files(others, header), ignored, net, io) == r
  {
    hide S.Without, S.Paths;
    L.WithoutContents(files, mine, ignored);
    L.WithoutContents(mine, files, ignored);
    L.WithoutContents(others, mine, ignored);
    L.WithoutContents(mine, others, ignored);
    SamePaths(files, others);
    C.FirstIsElement(S.Without(others, mine, ignored));
    C.FirstIsElement(S.Without(mine, others, ignored));
  }

  lemma SamePaths(files: seq<FileEntry>, others: seq<FileEntry>)
    requires forall f :: f in files <==> f in others
    ensures S.Paths(files) == S.Paths(others)
  {
    forall p ensures p in S.Paths(files) <==> p in S.Paths(others) {
      if i :| 0 <= i < |files| && files[i].path == p {
        assert files[i] in others;
      }
      if i :| 0 <= i < |others| && others[i].path == p {
        assert others[i] in files;
      }
    }
  }

  /**
   * Demoting a file on the master, while its drive resolves, makes a replica that was in step fetch and
   * delete nothing.
   */
  lemma ADemotionCausesNoTransfer(y: Layout, t: Tree, u: Tree, p: Path, slot: Path, data: Bytes,
                                  sys: Syscalls, files: seq<FileEntry>, sysU: Syscalls, others: seq<FileEntry>,
                                  r: Tree, root: Path, mine: seq<FileEntry>, ignored: Path -> bool,
                                  header: Option<string>,
                                  net: Path -> S.Fetch, io: S.Faults)
    requires Separate(y) && Tiered(y, t) && Cloud(y, p) && Cold(y, slot) && Unreferenced(y, t, slot)
    requires Read(t, p) == Some(data) && DemotedTree(y, t, u, p, slot, data)
    requires Clean(t, y.cloudDir, sys) && Clean(u, y.cloudDir, sysU)
    requires Lists(t, y.cloudDir, files, Listed(t, y.cloudDir, sys))
             && Lists(u, y.cloudDir, others, Listed(u, y.cloudDir, sysU))
    requires S.Without(files, mine, ignored) == [] && S.Without(mine, files, ignored) == []
    ensures S.Pass(r, root, mine, S.Files(others, header), ignored, net, io) == r
  {
    hide Separate, Tiered, Clean, Lists, S.Pass;
    DemotionKeepsTheListing(y, t, u, p, slot, data, sys, files, sysU, others);
    SameFilesCauseNoTransfer(r, root, mine, files, others, ignored, header, net, io);
  }

  /** And so does promoting one. */
  lemma APromotionCausesNoTransfer(y: Layout, t: Tree, u: Tree, p: Path,
                                   sys: Syscalls, files: seq<FileEntry>, sysU: Syscalls, others: seq<FileEntry>,
                                   r: Tree, root: Path, mine: seq<FileEntry>, ignored: Path -> bool,
                                   header: Option<string>,
                                   net: Path -> S.Fetch, io: S.Faults)
    requires Separate(y) && Tiered(y, t) && Cloud(y, p) && Promotable(t, p)
    requires u == PromotedTree(t, p) || u == PromotedTreeKeepingBlob(t, p)
    requires Clean(t, y.cloudDir, sys) && Clean(u, y.cloudDir, sysU)
    requires Lists(t, y.cloudDir, files, Listed(t, y.cloudDir, sys))
             && Lists(u, y.cloudDir, others, Listed(u, y.cloudDir, sysU))
    requires S.Without(files, mine, ignored) == [] && S.Without(mine, files, ignored) == []
    ensures S.Pass(r, root, mine, S.Files(others, header), ignored, net, io) == r
  {
    hide Separate, Tiered, Clean, Lists, S.Pass;
    PromotionKeepsTheListing(y, t, u, p, sys, files, sysU, others);
    SameFilesCauseNoTransfer(r, root, mine, files, others, ignored, header, net, io);
  }

  // ------------------------------------------------------------------ a file over the wire

  /**
   * How the master's stream of a file comes across: to its end, ended cleanly after `n` bytes (the
   * master cannot read on and closes the response), or broken off after `n` bytes with an error.
   */
  datatype Delivery = Whole | EndsEarly(n: nat) | BreaksOff(n: nat)

  function UpTo(stream: Bytes, n: nat): Bytes {
    if n < |stream| then stream[..n] else stream
  }

  /** What the replica makes of it: only an error on the stream is told from its end. */
  function Delivered(ks: Wire.Keystream, iv: Bytes, plain: Bytes, d: Delivery): S.Fetch {
    var stream := Wire.Sent(ks, iv, plain);
    match d
    case Whole => S.Served(Wire.Received(ks, stream))
    case EndsEarly(n) => S.Served(Wire.Received(ks, UpTo(stream, n)))
    case BreaksOff(n) => S.CutOff(Wire.Received(ks, UpTo(stream, n)))
  }

  /** The plaintext that `n` bytes of the stream carry. */
  function Beginning(plain: Bytes, n: nat): Bytes {
    if n <= Wire.IV_BYTES then [] else UpTo(plain, n - Wire.IV_BYTES)
  }

  /** A whole stream brings the file; one that ends early is served as a beginning of it; one that breaks off aborts. */
  lemma ADownloadBringsABeginning(ks: Wire.Keystream, iv: Bytes, plain: Bytes, d: Delivery)
    requires |iv| == Wire.IV_BYTES
    ensures Delivered(ks, iv, plain, d) ==
            match d
            case Whole => S.Served(plain)
            case EndsEarly(n) => S.Served(Beginning(plain, n))
            case BreaksOff(n) => S.CutOff(Beginning(plain, n))
  {
    var stream := Wire.Sent(ks, iv, plain);
    assert Wire.Concat([stream][..0]) + stream == stream;
    assert Wire.Concat([stream]) == stream;
    Wire.EverySplittingDecrypts(ks, iv, plain, [stream]);
    if !d.Whole? && d.n < |stream| {
      Wire.ACutOffTransferIsAPrefix(ks, iv, plain, d.n);
    }
  }

  /** All of the file comes across: the stream is whole, or what is missing of it carries no byte of the file. */
  predicate Complete(plain: Bytes, d: Delivery) {
    d.Whole? || (d.EndsEarly? && (plain == [] || d.n >= Wire.IV_BYTES + |plain|))
  }

  /** The file is served with its bytes exactly when all of it comes across. */
  lemma ServedWholeIff(ks: Wire.Keystream, iv: Bytes, plain: Bytes, d: Delivery)
    requires |iv| == Wire.IV_BYTES
    ensures Delivered(ks, iv, plain, d) == S.Served(plain) <==> Complete(plain, d)
    ensures Delivered(ks, iv, plain, d).CutOff? <==> d.BreaksOff?
    ensures !d.BreaksOff? ==> Delivered(ks, iv, plain, d).Served?
  {
    ADownloadBringsABeginning(ks, iv, plain, d);
  }

  // ------------------------------------------------------------------ a pass over the wire

  /** A replica and a master with full listings of each other's file systems, and nothing in the way. */
  ghost predicate Meet(t: Tree, root: Path, mine: seq<FileEntry>, m: Tree, mroot: Path, resp: S.Response,
                       ignored: Path -> bool) {
    && C.FileSystem(t, root) && Lists(t, root, mine, AllLeaves(t, root))
    && C.FileSystem(m, mroot) && resp.Files? && Lists(m, mroot, resp.files, AllLeaves(m, mroot))
    && resp.header != Some("0")
    && forall e :: e in S.Without(resp.files, mine, ignored) ==>
         !C.Clash(t, root + e.path) && Read(m, mroot + e.path).Some?
  }

  /** Every missing file goes through the cipher, under some IV, and comes across as `how` says. */
  ghost predicate OverTheWire(missing: seq<FileEntry>, m: Tree, mroot: Path, net: Path -> S.Fetch, ks: Wire.Keystream,
                              ivs: Path -> Bytes, how: Path -> Delivery)
  {
    forall e :: e in missing ==>
      && Read(m, mroot + e.path).Some? && |ivs(e.path)| == Wire.IV_BYTES
      && net(e.path) == Delivered(ks, ivs(e.path), Read(m, mroot + e.path).value, how(e.path))
  }

  lemma OneOverTheWire(missing: seq<FileEntry>, m: Tree, mroot: Path, net: Path -> S.Fetch, ks: Wire.Keystream,
                       ivs: Path -> Bytes, how: Path -> Delivery, e: FileEntry)
    requires OverTheWire(missing, m, mroot, net, ks, ivs, how) && e in missing
    ensures var plain := Read(m, mroot + e.path).value;
            && (net(e.path) == S.Served(plain) <==> Complete(plain, how(e.path)))
            && (net(e.path).CutOff? <==> how(e.path).BreaksOff?)
            && (how(e.path).EndsEarly? ==> net(e.path) == S.Served(Beginning(plain, how(e.path).n)))
            && (!how(e.path).BreaksOff? ==> net(e.path).Served?)
  {
    ServedWholeIff(ks, ivs(e.path), Read(m, mroot + e.path).value, how(e.path));
    ADownloadBringsABeginning(ks, ivs(e.path), Read(m, mroot + e.path).value, how(e.path));
  }

  /** The replica got through its downloads, has the master's paths, and holds the master's bytes in the new files. */
  ghost predicate Converged(t: Tree, root: Path, mine: seq<FileEntry>, m: Tree, mroot: Path, resp: S.Response,
                            ignored: Path -> bool, net: Path -> S.Fetch)
    requires resp.Files?
  {
    var missing := S.Without(resp.files, mine, ignored);
    var u := S.Pass(t, root, mine, resp, ignored, net, S.NO_FAULTS);
    && S.Downloads(t, root, missing, net, S.NO_FAULTS).1
    && C.InSync(u, root, m, mroot, ignored)
    && forall e :: e in missing ==>
         Read(m, mroot + e.path).Some? && root + e.path in u && u[root + e.path] == File(Read(m, mroot + e.path).value)
  }

  /**
   * An encrypted pass converges exactly when all of every missing file comes across. Short of that,
   * a broken stream abandons the pass, and a stream that merely ends early does not.
   */
  lemma AnEncryptedPassConvergesIff(t: Tree, root: Path, mine: seq<FileEntry>, m: Tree, mroot: Path, resp: S.Response,
                                    ignored: Path -> bool, net: Path -> S.Fetch, ks: Wire.Keystream, ivs: Path -> Bytes,
                                    how: Path -> Delivery)
    requires Meet(t, root, mine, m, mroot, resp, ignored)
    requires OverTheWire(S.Without(resp.files, mine, ignored), m, mroot, net, ks, ivs, how)
    ensures Converged(t, root, mine, m, mroot, resp, ignored, net) <==>
            forall e :: e in S.Without(resp.files, mine, ignored) ==>
              Read(m, mroot + e.path).Some? && Complete(Read(m, mroot + e.path).value, how(e.path))
    ensures S.Downloads(t, root, S.Without(resp.files, mine, ignored), net, S.NO_FAULTS).1 <==>
            forall e :: e in S.Without(resp.files, mine, ignored) ==> !how(e.path).BreaksOff?
  {
    hide C.FileSystem, Lists, AllLeaves, S.Pass, C.Clash, Delivered, Complete, S.Without, C.InSync, OverTheWire;
    var missing := S.Without(resp.files, mine, ignored);
    forall e | e in missing ensures net(e.path).CutOff? <==> how(e.path).BreaksOff? {
      OneOverTheWire(missing, m, mroot, net, ks, ivs, how, e);
    }
    if e :| e in missing && how(e.path).BreaksOff? {
      C.ABrokenBodyStopsTheDownloads(t, root, missing, net, S.NO_FAULTS, e);
      BrokenIsNotComplete(Read(m, mroot + e.path).value, how(e.path));
    } else {
      forall e | e in missing
        ensures net(e.path).Served?
        ensures net(e.path).data == Read(m, mroot + e.path).value <==>
                Complete(Read(m, mroot + e.path).value, how(e.path))
      {
        OneOverTheWire(missing, m, mroot, net, ks, ivs, how, e);
      }
      C.APassOfServedFiles(t, root, mine, m, mroot, resp, ignored, net);
    }
  }

  lemma BrokenIsNotComplete(plain: Bytes, d: Delivery)
    requires d.BreaksOff?
    ensures !Complete(plain, d)
  {
  }

  /**
   * The failing input: the master cannot open a file it listed, so its response ends after the IV.
   * The replica accepts an empty file, the pass goes through and is in step; the next pass does
   * nothing, and over any further passes in which both sides list the file it stays empty.
   */
  lemma AnUnreadableFileArrivesEmptyForGood(
      t: Tree, u: Tree, root: Path, mine: seq<FileEntry>, m: Tree, mroot: Path, resp: S.Response, ignored: Path -> bool,
      net: Path -> S.Fetch, ks: Wire.Keystream, ivs: Path -> Bytes, how: Path -> Delivery, e: FileEntry,
      mine2: seq<FileEntry>, resp2: S.Response, net2: Path -> S.Fetch, io2: S.Faults, turns: seq<L.Turn>)
    requires Meet(t, root, mine, m, mroot, resp, ignored) && u == S.Pass(t, root, mine, resp, ignored, net, S.NO_FAULTS)
    requires OverTheWire(S.Without(resp.files, mine, ignored), m, mroot, net, ks, ivs, how)
    requires forall f :: f in S.Without(resp.files, mine, ignored) ==> !how(f.path).BreaksOff?
    requires e in S.Without(resp.files, mine, ignored) && how(e.path) == EndsEarly(Wire.IV_BYTES)
    requires forall q :: q in t ==> t[q] != Link(root + e.path)
    requires Lists(u, root, mine2, AllLeaves(u, root))
    requires resp2.Files? && Lists(m, mroot, resp2.files, AllLeaves(m, mroot))
    requires forall i :: 0 <= i < |turns| ==>
               e.path in S.Paths(turns[i].mine) && (turns[i].resp.Failed? || e.path in S.Paths(turns[i].resp.files))
    ensures S.Downloads(t, root, S.Without(resp.files, mine, ignored), net, S.NO_FAULTS).1
    ensures C.InSync(u, root, m, mroot, ignored) && C.PlainFile(u, root + e.path, [])
    ensures S.Pass(u, root, mine2, resp2, ignored, net2, io2) == u
    ensures C.PlainFile(L.Run(u, root, ignored, turns), root + e.path, [])
  {
    hide C.FileSystem, Lists, AllLeaves, S.Pass, C.Clash, S.Without, C.InSync, OverTheWire, L.Run, S.Paths;
    var missing := S.Without(resp.files, mine, ignored);
    forall f | f in missing ensures net(f.path).Served? {
      OneOverTheWire(missing, m, mroot, net, ks, ivs, how, f);
    }
    OneOverTheWire(missing, m, mroot, net, ks, ivs, how, e);
    C.APassOfServedFiles(t, root, mine, m, mroot, resp, ignored, net);
    assert C.PlainFile(u, root + e.path, []);
    C.ASecondPassIsIdle(u, root, mine2, m, mroot, resp2, ignored, net2, io2);
    C.AShortFileIsNeverRepaired(u, root, ignored, turns, e.path, []);
  }

  /** The smallest such case: an empty replica and a master with one file it cannot read. */
  lemma AnEmptyReplicaGetsAnEmptyFile(ks: Wire.Keystream, iv: Bytes, b: bv8)
    requires |iv| == Wire.IV_BYTES
    ensures var t: Tree := map[[] := Dir];
            var m: Tree := map[[] := Dir, ["a"] := File([b])];
            var resp := S.Files([FileEntry(["a"], 1)], Some("1"));
            var net := (p: Path) => Delivered(ks, iv, [b], EndsEarly(Wire.IV_BYTES));
            && Meet(t, [], [], m, [], resp, p => false)
            && S.Pass(t, [], [], resp, p => false, net, S.NO_FAULTS) == map[[] := Dir, ["a"] := File([])]
            && !Converged(t, [], [], m, [], resp, p => false, net)
  {
  }
}
