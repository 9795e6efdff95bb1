/** The daemon's state directories under the fence: which owners and modes are recorded
    before they are changed, and what giving them back achieves. */
module StateTree {
  import opened Options
  import opened HostDisk

  const MAX_STATE_FILE_BYTES: nat := 0x1000_0000
  const MAX_STATE_TREE_BYTES: nat := 0x2000_0000
  const MAX_STATE_ENTRIES: nat := 512

  type Tree = map<Path, Node>

  /** What a daemon makes of its own directories, and of the supply of inodes, while it runs. */
  type Daemon = (Tree, nat) -> (Tree, nat)

  ghost function PathsOf(entries: seq<Ownership>): set<Path> {
    set e | e in entries :: e.path
  }

  ghost predicate Distinct(entries: seq<Ownership>) {
    forall i, j :: 0 <= i < j < |entries| ==> entries[i].path != entries[j].path
  }

  /** What a fence records about a node it is about to change. */
  function Recorded(p: Path, n: Node): Ownership {
    Ownership(p, n.uid, n.gid, Perm(n.mode))
  }

  predicate Owns(e: Ownership, n: Node) {
    n.uid == e.uid && n.gid == e.gid && n.mode == e.mode
  }

  function SealedMode(n: Node): nat {
    if n.kind.Directory? then 0x1C0 else 0x180
  }

  predicate IsSealed(n: Node) {
    n.uid == 0 && n.gid == 0 && ((n.kind.Directory? && n.mode == 0x1C0) || (n.kind.Regular? && n.mode == 0x180))
  }

  /** Below a state root every path has all of its parents, which are directories; outside the
      roots there is nothing. */
  predicate WellFormed(tree: Tree, roots: seq<Path>) {
    && (forall p :: p in tree ==> exists i :: 0 <= i < |roots| && roots[i] <= p)
    && (forall i :: 0 <= i < |roots| ==> Chained(tree, roots[i]))
  }

  predicate Chained(tree: Tree, top: Path) {
    forall p, k :: p in tree && top <= p && |top| <= k <= |p| ==>
      p[..k] in tree && (k < |p| ==> tree[p[..k]].kind.Directory?)
  }

  predicate IsChild(parent: Path, p: Path) {
    parent < p && |p| == |parent| + 1
  }

  /** The write-ahead condition: whatever the fence changed is in the journal with the values
      it had before, and a journal past the sealing stage lists the whole original tree. */
  ghost predicate WriteAhead(s: Journal, tree: Tree, first: Tree, touched: set<Path>, roots: seq<Path>) {
    && Distinct(s.ownership) && Distinct(s.recovery)
    && (forall e :: e in s.ownership ==> e.path in first && e == Recorded(e.path, first[e.path]))
    && (forall e :: e in s.recovery && e.path !in PathsOf(s.ownership) && e.path !in touched
                    ==> e.path in first && e == Recorded(e.path, first[e.path]))
    && (forall p :: p in tree && p !in PathsOf(s.ownership) && p !in PathsOf(s.recovery) && p !in touched
                    ==> p in first && tree[p] == first[p])
    && (s.fence.Unfenced? ==> s.ownership == [])
    && (s.fence.Sealing? ==> s.recovery == [])
    && (s.fence.Profile? ==> first.Keys <= PathsOf(s.ownership) && forall i :: 0 <= i < |roots| ==> roots[i] in first)
  }

  lemma OwnershipRecorded(s: Journal, e: Ownership, tree: Tree, first: Tree, touched: set<Path>, roots: seq<Path>)
    requires WriteAhead(s, tree, first, touched, roots) && s.fence.Sealing? && touched == {}
    requires e.path in tree && e.path !in PathsOf(s.ownership) && e == Recorded(e.path, tree[e.path])
    ensures WriteAhead(s.(ownership := s.ownership + [e]), tree, first, touched, roots)
    ensures PathsOf(s.ownership + [e]) == PathsOf(s.ownership) + {e.path}
  {
    PathsExtended(s.ownership, e);
  }

  lemma RecoveryRecorded(s: Journal, e: Ownership, tree: Tree, first: Tree, touched: set<Path>, roots: seq<Path>)
    requires WriteAhead(s, tree, first, touched, roots) && !s.fence.Sealing?
    requires e.path in tree && e.path !in PathsOf(s.recovery) && e == Recorded(e.path, tree[e.path])
    ensures WriteAhead(s.(recovery := s.recovery + [e]), tree, first, touched, roots)
    ensures PathsOf(s.recovery + [e]) == PathsOf(s.recovery) + {e.path}
  {
    PathsExtended(s.recovery, e);
  }

  lemma PathsExtended(entries: seq<Ownership>, e: Ownership)
    ensures PathsOf(entries + [e]) == PathsOf(entries) + {e.path}
    ensures Distinct(entries) && e.path !in PathsOf(entries) ==> Distinct(entries + [e])
  {
    var more := entries + [e];
    assert more[|entries|] == e;
    forall p | p in PathsOf(entries) + {e.path} ensures p in PathsOf(more) {
      if p in PathsOf(entries) {
        var x :| x in entries && x.path == p;
        assert x in more;
      } else {
        assert e in more;
      }
    }
    if e.path !in PathsOf(entries) {
      forall i | 0 <= i < |entries| ensures entries[i].path != e.path {
        assert entries[i] in entries;
      }
    }
  }

  method IsKnown(entries: seq<Ownership>, path: Path) returns (known: bool)
    ensures known <==> path in PathsOf(entries)
  {
    known := false;
    for i := 0 to |entries|
      invariant known <==> exists k :: 0 <= k < i && entries[k].path == path
    {
      known := known || entries[i].path == path;
    }
    if known {
      var k :| 0 <= k < |entries| && entries[k].path == path;
      assert entries[k] in entries;
    }
  }

  // ---- the daemon at work ----------------------------------------------------------------

  /** The paths whose node is new or changed. */
  function Differences(before: Tree, after: Tree): set<Path> {
    set p | p in after && !(p in before && after[p] == before[p])
  }

  /** A daemon may do anything in its own directories and nothing outside of them; new files get
      inodes that were never in use. */
  function Acts(daemon: Daemon, tree: Tree, nextInode: nat, roots: seq<Path>): (Tree, nat) {
    var (after, inode) := daemon(tree, nextInode);
    if WellFormed(after, roots) && nextInode <= inode && forall p | p in after :: after[p].inode < inode
    then (after, inode) else (tree, nextInode)
  }

  method LetAct(d: Disk, daemon: Daemon)
    modifies d`tree, d`nextInode, d`touched
    ensures (d.tree, d.nextInode) == Acts(daemon, old(d.tree), old(d.nextInode), d.roots)
    ensures d.touched == old(d.touched) + Differences(old(d.tree), d.tree)
  {
    hide WellFormed;
    var (tree, inode) := Acts(daemon, d.tree, d.nextInode, d.roots);
    d.touched := d.touched + Differences(d.tree, tree);
    d.tree, d.nextInode := tree, inode;
  }

  /** What the daemon does during one command: until it is stopped for the change, as the target
      service, until it is stopped for the restoration, and as the original service again. */
  datatype Work = Work(untilStopped: Daemon, asTarget: Daemon, untilUndone: Daemon, asOriginal: Daemon)

  /** The state of the tree when a service is started on it. */
  datatype Handover = Handover(tree: Tree, nextInode: nat, touched: set<Path>)

  /** What is remembered about the tree: as it is, as it is to be given back, and the paths that
      a daemon has changed in between. */
  datatype Notes = Notes(tree: Tree, first: Tree, touched: set<Path>)

  /** A daemon that is stopped with nothing recorded leaves the tree to give back. */
  ghost predicate NotedSince(s: Journal, before: Notes, stopped: Notes) {
    if Unrecorded(s) then stopped.first == stopped.tree && stopped.touched == {}
    else stopped.first == before.first
         && stopped.touched == before.touched + Differences(before.tree, stopped.tree)
  }

  /** Nothing has been recorded yet, so the tree to give back is the one that the daemon leaves
      when it is stopped. */
  predicate Unrecorded(s: Journal) {
    s.fence.Unfenced? && s.ownership == [] && s.recovery == []
  }

  // ---- sealing ------------------------------------------------------------------------

  /** Nothing appears, disappears or changes kind, and only nodes under `path` change. */
  ghost predicate Within(before: Tree, after: Tree, path: Path) {
    && after.Keys == before.Keys
    && (forall q :: q in after ==> after[q].kind == before[q].kind && (!(path <= q) ==> after[q] == before[q]))
  }

  /** Everything under `path` belongs to root alone, is recorded, and no regular file is an
      inode that anyone could have had open before `firstInode` was handed out. */
  ghost predicate SealedBelow(tree: Tree, path: Path, recorded: set<Path>, firstInode: nat) {
    forall q :: q in tree && path <= q ==>
      IsSealed(tree[q]) && q in recorded && (tree[q].kind.Regular? ==> tree[q].inode >= firstInode)
  }

  lemma SiblingStaysSealed(before: Tree, after: Tree, parent: Path, done: Path, other: Path,
                           old_: set<Path>, new_: set<Path>, firstInode: nat)
    requires SealedBelow(before, done, old_, firstInode) && old_ <= new_
    requires Within(before, after, other)
    requires IsChild(parent, done) && IsChild(parent, other) && done != other
    ensures SealedBelow(after, done, new_, firstInode)
  {
    forall q | q in after && done <= q
      ensures after[q] == before[q]
    {
      assert q[..|parent| + 1] == done != other;
    }
  }

  lemma DirectorySealed(tree: Tree, path: Path, children: set<Path>, recorded: set<Path>, firstInode: nat)
    requires Chained(tree, path) && path in tree
    requires IsSealed(tree[path]) && tree[path].kind.Directory? && path in recorded
    requires forall q :: q in tree && IsChild(path, q) ==> q in children
    requires forall c :: c in children ==> SealedBelow(tree, c, recorded, firstInode)
    ensures SealedBelow(tree, path, recorded, firstInode)
  {
    forall q | q in tree && path <= q && q != path
      ensures IsSealed(tree[q]) && q in recorded && (tree[q].kind.Regular? ==> tree[q].inode >= firstInode)
    {
      var c := q[..|path| + 1];
      assert c in tree && IsChild(path, c) && c <= q;
    }
  }

  lemma FileSealed(tree: Tree, path: Path, recorded: set<Path>, firstInode: nat)
    requires Chained(tree, path) && path in tree && tree[path].kind.Regular?
    requires IsSealed(tree[path]) && path in recorded && tree[path].inode >= firstInode
    ensures SealedBelow(tree, path, recorded, firstInode)
  {
    forall q | q in tree && path <= q ensures q == path {
      assert q[..|path|] == path;
    }
  }

  /** Sealing another root cannot open one that was sealed before, even below it. */
  lemma RootStaysSealed(before: Tree, after: Tree, done: Path, top: Path, old_: set<Path>, new_: set<Path>,
                        firstInode: nat)
    requires SealedBelow(before, done, old_, firstInode) && old_ <= new_
    requires SealedBelow(after, top, new_, firstInode) && Within(before, after, top)
    ensures SealedBelow(after, done, new_, firstInode)
  {
  }

  ghost predicate AllSealed(tree: Tree, recorded: set<Path>, firstInode: nat) {
    forall p :: p in tree ==>
      IsSealed(tree[p]) && p in recorded && (tree[p].kind.Regular? ==> tree[p].inode >= firstInode)
  }

  lemma RootIsChained(tree: Tree, roots: seq<Path>, i: nat)
    requires WellFormed(tree, roots) && i < |roots|
    ensures Chained(tree, roots[i])
  {
  }

  lemma RootsCoverTree(tree: Tree, roots: seq<Path>, recorded: set<Path>, firstInode: nat)
    requires WellFormed(tree, roots)
    requires forall i :: 0 <= i < |roots| ==> SealedBelow(tree, roots[i], recorded, firstInode)
    ensures AllSealed(tree, recorded, firstInode)
  {
  }

  lemma ChainedBelow(tree: Tree, path: Path, child: Path)
    requires Chained(tree, path) && path <= child
    ensures Chained(tree, child)
  {
  }

  lemma OlderInodes(tree: Tree, path: Path, recorded: set<Path>, newer: nat, older: nat)
    requires SealedBelow(tree, path, recorded, newer) && older <= newer
    ensures SealedBelow(tree, path, recorded, older)
  {
  }

  lemma OneNodeChanged(before: Tree, after: Tree, path: Path)
    requires after.Keys == before.Keys
    requires path in after ==> after[path].kind == before[path].kind
    requires forall q :: q in after && q != path ==> after[q] == before[q]
    ensures Within(before, after, path)
  {
  }

  lemma WithinTwice(a: Tree, b: Tree, c: Tree, path: Path, below: Path)
    requires Within(a, b, path) && Within(b, c, below) && path <= below
    ensures Within(a, c, path) && c.Keys == a.Keys
  {
  }

  lemma WriteAheadKept(s: Journal, before: Tree, after: Tree, first: Tree, touched: set<Path>, roots: seq<Path>)
    requires WriteAhead(s, before, first, touched, roots)
    requires after.Keys == before.Keys
    requires forall p :: p in after && p !in PathsOf(s.ownership) && p !in PathsOf(s.recovery) ==> after[p] == before[p]
    ensures WriteAhead(s, after, first, touched, roots)
  {
  }

  lemma ShapeKept(before: Tree, after: Tree, roots: seq<Path>, top: Path)
    requires after.Keys == before.Keys && forall p :: p in after ==> after[p].kind == before[p].kind
    ensures WellFormed(before, roots) ==> WellFormed(after, roots)
    ensures Chained(before, top) ==> Chained(after, top)
  {
  }

  lemma PrefixPaths(a: seq<Ownership>, b: seq<Ownership>)
    requires a <= b
    ensures PathsOf(a) <= PathsOf(b)
  {
    forall p | p in PathsOf(a) ensures p in PathsOf(b) {
      var e :| e in a && e.path == p;
      assert e in b;
    }
  }

  function FirstRoot(roots: seq<Path>, p: Path): (r: Option<Path>)
    ensures r.Some? ==> r.value <= p && r.value in roots
    ensures r.None? ==> forall i :: 0 <= i < |roots| ==> !(roots[i] <= p)
  {
    if roots == [] then None
    else if roots[0] <= p then Some(roots[0])
    else FirstRoot(roots[1..], p)
  }

  function Lookup(entries: seq<Ownership>, p: Path): (r: Option<Ownership>)
    ensures r.Some? ==> r.value in entries && r.value.path == p
    ensures r.None? ==> forall e :: e in entries ==> e.path != p
  {
    if entries == [] then None
    else if entries[0].path == p then Some(entries[0])
    else Lookup(entries[1..], p)
  }

  /** What restoration gives a path that only the recovery fence knows: a file created after
      the first fence belongs to the original owner of its state root, with a tight mode. */
  function Adjusted(e: Ownership, ownership: seq<Ownership>, roots: seq<Path>, tree: Tree): Ownership {
    match FirstRoot(roots, e.path)
    case None => e
    case Some(root) =>
      match Lookup(ownership, root)
      case None => e
      case Some(owner) =>
        Ownership(e.path, owner.uid, owner.gid, if e.path in tree && tree[e.path].kind.Directory? then 0x1C0 else 0x180)
  }

  /** Every listed path that still exists has the listed owner and mode. */
  ghost predicate GivenBack(s: Journal, before: Tree, after: Tree, roots: seq<Path>) {
    && after.Keys == before.Keys
    && (forall e :: e in s.ownership && e.path in after ==> Owns(e, after[e.path]))
    && (forall e :: e in s.recovery && e.path in after && e.path !in PathsOf(s.ownership)
                    ==> Owns(Adjusted(e, s.ownership, roots, before), after[e.path]))
    && (forall p :: p in after && p !in PathsOf(s.ownership) && p !in PathsOf(s.recovery) ==> after[p] == before[p])
  }

  /** The list that restoration hands to changeOwnership: every entry of the first fence, then
      the adjusted entries that only the recovery fence knows. */
  ghost predicate RestoreList(entries: seq<Ownership>, s: Journal, known: nat, roots: seq<Path>, tree: Tree)
    requires known <= |s.recovery|
  {
    && Distinct(entries)
    && s.ownership <= entries
    && (forall k :: 0 <= k < known && s.recovery[k].path !in PathsOf(s.ownership) ==>
          Adjusted(s.recovery[k], s.ownership, roots, tree) in entries)
    && (forall k :: |s.ownership| <= k < |entries| ==>
          exists i :: 0 <= i < known && entries[k] == Adjusted(s.recovery[i], s.ownership, roots, tree)
                      && entries[k].path == s.recovery[i].path && entries[k].path !in PathsOf(s.ownership))
  }

  lemma RestoreListStarts(s: Journal, roots: seq<Path>, tree: Tree)
    requires Distinct(s.ownership)
    ensures RestoreList(s.ownership, s, 0, roots, tree)
  {
  }

  lemma RestoreListGrows(entries: seq<Ownership>, s: Journal, k: nat, roots: seq<Path>, tree: Tree)
    requires k < |s.recovery| && Distinct(s.recovery)
    requires RestoreList(entries, s, k, roots, tree)
    ensures s.recovery[k].path in PathsOf(s.ownership) ==> RestoreList(entries, s, k + 1, roots, tree)
    ensures s.recovery[k].path !in PathsOf(s.ownership) ==>
              RestoreList(entries + [Adjusted(s.recovery[k], s.ownership, roots, tree)], s, k + 1, roots, tree)
  {
    var a := Adjusted(s.recovery[k], s.ownership, roots, tree);
    if a.path !in PathsOf(s.ownership) {
      var more := entries + [a];
      assert more[|entries|] == a;
      assert forall i :: 0 <= i < |entries| ==> more[i] == entries[i];
      forall i | 0 <= i < |entries| ensures entries[i].path != a.path {
        if i < |s.ownership| {
          assert entries[i] == s.ownership[i] && s.ownership[i] in s.ownership;
        }
      }
    }
  }

  lemma ListDistinct(entries: seq<Ownership>, s: Journal, roots: seq<Path>, tree: Tree)
    requires RestoreList(entries, s, |s.recovery|, roots, tree)
    ensures Distinct(entries)
  {
  }

  lemma LookupUnique(entries: seq<Ownership>, e: Ownership)
    requires Distinct(entries) && e in entries
    ensures Lookup(entries, e.path) == Some(e)
  {
    var r := Lookup(entries, e.path).value;
    var i :| 0 <= i < |entries| && entries[i] == e;
    var j :| 0 <= j < |entries| && entries[j] == r;
    assert i == j;
  }

  method Originals(ownership: seq<Ownership>) returns (originals: map<Path, Ownership>)
    requires Distinct(ownership)
    ensures forall p :: p in originals <==> p in PathsOf(ownership)
    ensures forall p :: p in originals ==> Lookup(ownership, p) == Some(originals[p])
  {
    originals := map[];
    for i := 0 to |ownership|
      invariant forall p :: p in originals <==> p in PathsOf(ownership[..i])
      invariant forall p :: p in originals ==> originals[p] in ownership && originals[p].path == p
    {
      var e := ownership[i];
      assert ownership[..i + 1] == ownership[..i] + [e];
      PathsExtended(ownership[..i], e);
      originals := originals[e.path := e];
    }
    assert ownership[..|ownership|] == ownership;
    forall p | p in originals ensures Lookup(ownership, p) == Some(originals[p]) {
      LookupUnique(ownership, originals[p]);
    }
  }

  lemma RestoreListPaths(entries: seq<Ownership>, s: Journal, roots: seq<Path>, tree: Tree)
    requires RestoreList(entries, s, |s.recovery|, roots, tree)
    ensures PathsOf(entries) == PathsOf(s.ownership) + PathsOf(s.recovery)
  {
    PrefixPaths(s.ownership, entries);
    forall p | p in PathsOf(s.recovery) ensures p in PathsOf(entries) {
      var e :| e in s.recovery && e.path == p;
      var k :| 0 <= k < |s.recovery| && s.recovery[k] == e;
      if p !in PathsOf(s.ownership) {
        assert Adjusted(e, s.ownership, roots, tree) in entries;
      }
    }
    forall p | p in PathsOf(entries) ensures p in PathsOf(s.ownership) + PathsOf(s.recovery) {
      var e :| e in entries && e.path == p;
      var k :| 0 <= k < |entries| && entries[k] == e;
      if k < |s.ownership| {
        assert e == s.ownership[k];
      }
    }
  }

  /** Every listed node that exists has been given its listed owner and mode. */
  ghost predicate Applied(entries: seq<Ownership>, before: Tree, after: Tree) {
    && after.Keys == before.Keys
    && (forall e :: e in entries && e.path in after ==> Owns(e, after[e.path]))
    && (forall p :: p in after && p !in PathsOf(entries) ==> after[p] == before[p])
  }

  lemma ListGivesBack(entries: seq<Ownership>, s: Journal, before: Tree, after: Tree, roots: seq<Path>)
    requires RestoreList(entries, s, |s.recovery|, roots, before)
    requires Applied(entries, before, after)
    ensures GivenBack(s, before, after, roots)
  {
    RestoreListPaths(entries, s, roots, before);
    forall e | e in s.ownership ensures e in entries {
      var k :| 0 <= k < |s.ownership| && s.ownership[k] == e;
      assert entries[k] == e;
    }
  }

  /** The node belongs to the given identity alone. */
  predicate GivenTo(n: Node, uid: int, gid: int) {
    n.uid == uid && n.gid == gid && n.mode == if n.kind.Directory? then 0x1C0 else 0x180
  }

  /** The node has the original owner of a state root above it, and 0600 or 0700. */
  ghost predicate FollowsRoot(p: Path, n: Node, first: Tree, roots: seq<Path>) {
    exists i :: 0 <= i < |roots| && roots[i] <= p && roots[i] in first &&
      GivenTo(n, first[roots[i]].uid, first[roots[i]].gid)
  }

  /** Original files of the tree have their owners back unless the daemon replaced them before
      they were recorded; files it created belong to the original owner of their state root. */
  ghost predicate TreeReturned(ownership: seq<Ownership>, fence: FenceStage, tree: Tree, first: Tree,
                               touched: set<Path>, roots: seq<Path>) {
    && (forall p :: p in tree && p in first && (fence.Profile? || p in PathsOf(ownership) || p !in touched) ==>
          SameOwner(tree[p], first[p]))
    && (fence.Profile? ==> forall p :: p in tree && p !in first ==> FollowsRoot(p, tree[p], first, roots))
  }

  /** The node has the owner, group and permission bits of the original one. */
  predicate SameOwner(n: Node, original: Node) {
    n.uid == original.uid && n.gid == original.gid && Perm(n.mode) == Perm(original.mode)
  }

  /** A file of the original tree that the daemon did not replace behind the journal's back
      ends with its original owner, wherever the fence was interrupted. */
  lemma OriginalOwnersReturn(s: Journal, before: Tree, after: Tree, first: Tree, touched: set<Path>, roots: seq<Path>)
    requires WriteAhead(s, before, first, touched, roots)
    requires GivenBack(s, before, after, roots)
    ensures forall p :: p in after && p in first && (p in PathsOf(s.ownership) || p !in touched)
                        ==> SameOwner(after[p], first[p])
  {
    forall p | p in after && p in first && (p in PathsOf(s.ownership) || p !in touched)
      ensures SameOwner(after[p], first[p])
    {
      if p in PathsOf(s.ownership) {
        var e :| e in s.ownership && e.path == p;
      } else if p in PathsOf(s.recovery) {
        var e :| e in s.recovery && e.path == p;
        assert s.fence.Unfenced?;
        assert Adjusted(e, s.ownership, roots, before) == e;
      }
    }
  }

  /** A file created under a fenced root gets the root's original owner and 0600 or 0700. */
  lemma NewFilesFollowTheirRoot(s: Journal, before: Tree, after: Tree, first: Tree, touched: set<Path>,
                                roots: seq<Path>, p: Path)
    requires WellFormed(before, roots) && s.fence.Profile?
    requires WriteAhead(s, before, first, touched, roots)
    requires GivenBack(s, before, after, roots)
    requires p in after && p in before && p !in first && p in PathsOf(s.recovery)
    requires after[p].kind == before[p].kind
    ensures FollowsRoot(p, after[p], first, roots)
  {
    var e :| e in s.recovery && e.path == p;
    assert p !in PathsOf(s.ownership);
    assert p in before;
    var root := FirstRoot(roots, p).value;
    var i :| 0 <= i < |roots| && roots[i] == root;
    assert root in PathsOf(s.ownership);
    var owner := Lookup(s.ownership, root).value;
    assert owner == Recorded(root, first[root]);
  }

  /** A recorded mode is the whole mode exactly when no set-ID or sticky bit was on: this is
      when giving it back restores the original mode. */
  lemma ModeSurvivesExactly(p: Path, n: Node)
    ensures Owns(Recorded(p, n), n) <==> n.mode < 0x200
  {
    assert Perm(n.mode) == n.mode <==> n.mode < 0x200;
  }
}
