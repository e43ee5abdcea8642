/** Finding the files of a chain, leaf first (chain.rs). */
module Chains {
  import opened Wrappers
  import opened Bytes
  import opened Format
  import opened ParentLocators
  import opened MetadataRegion
  import opened Disks

  type Path = string

  /**
   * The files there are, by canonical path, and the paths that lead to them. `resolve` stands for the search for the
   * file a locator names, `linkage` for reading the parent's identity out of a locator.
   */
  datatype FileSystem = FileSystem(
    files: map<Path, Buffer>,
    names: map<Path, Path>,
    resolve: (Path, ParentLocator) -> Option<Path>,
    linkage: ParentLocator -> Option<Guid>)
  {
    /** A path that does not resolve is kept as it is. */
    function Canonical(p: Path): Path {
      if p in names then names[p] else p
    }

    function Open(p: Path): Result<VhdxDisk> {
      if p in names && names[p] in files then OpenDisk(files[names[p]], true) else Err(UnexpectedEof)
    }
  }

  datatype ParentLink = ParentLink(locatorType: Guid, expectedDataWriteGuid: Option<Guid>, resolvedPath: Option<Path>)

  datatype ChainNode = ChainNode(
    path: Path,
    dataWriteGuid: Guid,
    fileWriteGuid: Guid,
    virtualDiskSize: nat,
    blockSize: nat,
    hasParent: bool,
    parentLink: Option<ParentLink>)

  /** What is recorded of one file; none for a file that says it has a parent but holds no locator. */
  function NodeOf(fs: FileSystem, p: Path, d: VhdxDisk): Result<ChainNode> {
    var h := d.headers.Active();
    var node := ChainNode(p, h.dataWriteGuid, h.fileWriteGuid, d.metadata.virtualDiskSize, d.BlockSize(), d.HasParent(), None);
    if !d.HasParent() then Ok(node)
    else
      match d.metadata.parentLocator
      case None => Err(InvalidStructure)
      case Some(pl) => Ok(node.(parentLink := Some(ParentLink(pl.locatorType, fs.linkage(pl), fs.resolve(p, pl)))))
  }

  function NodeAt(fs: FileSystem, p: Path): Result<ChainNode> {
    var d :- fs.Open(p);
    NodeOf(fs, p, d)
  }

  /** The node of `p` is linked to the file at `next`. */
  predicate LeadsTo(fs: FileSystem, p: Path, next: Path) {
    && NodeAt(fs, p).Ok? && NodeAt(fs, p).value.hasParent
    && NodeAt(fs, p).value.parentLink.Some? && NodeAt(fs, p).value.parentLink.value.resolvedPath == Some(next)
  }

  /** Paths that follow the links from the leaf. */
  predicate IsWalk(fs: FileSystem, leaf: Path, paths: seq<Path>) {
    && paths != [] && paths[0] == leaf
    && forall i :: 0 <= i < |paths| - 1 ==> LeadsTo(fs, paths[i], paths[i + 1])
  }

  /** No file is met twice. */
  predicate Distinct(fs: FileSystem, paths: seq<Path>) {
    forall i, j :: 0 <= i < j < |paths| ==> fs.Canonical(paths[i]) != fs.Canonical(paths[j])
  }

  /** A walk over different files that ends in a file without a parent. */
  predicate IsChain(fs: FileSystem, leaf: Path, paths: seq<Path>) {
    && IsWalk(fs, leaf, paths) && Distinct(fs, paths)
    && NodeAt(fs, paths[|paths| - 1]).Ok? && !NodeAt(fs, paths[|paths| - 1]).value.hasParent
  }

  predicate NodesOf(fs: FileSystem, paths: seq<Path>, nodes: seq<ChainNode>) {
    |nodes| == |paths| && forall i :: 0 <= i < |paths| ==> NodeAt(fs, paths[i]) == Ok(nodes[i])
  }

  /** Each stated parent identity is the next file's, or that file has none. */
  predicate Linked(nodes: seq<ChainNode>) {
    forall i :: 0 <= i < |nodes| - 1 && nodes[i].parentLink.Some? && nodes[i].parentLink.value.expectedDataWriteGuid.Some? ==>
      nodes[i + 1].dataWriteGuid in {nodes[i].parentLink.value.expectedDataWriteGuid.value, NIL}
  }

  // ---- The same, of the images ----

  /** The locator of an image that says it has a parent. */
  function LocatorOf(d: VhdxDisk): Option<ParentLocator> {
    if d.HasParent() then d.metadata.parentLocator else None
  }

  /** A file leads to another when it opens, has a parent, and the search for its locator finds that file. */
  lemma LeadsToIff(fs: FileSystem, p: Path, next: Path)
    ensures LeadsTo(fs, p, next) <==>
            fs.Open(p).Ok? && LocatorOf(fs.Open(p).value).Some? && fs.resolve(p, LocatorOf(fs.Open(p).value).value) == Some(next)
  {
    hide OpenDisk;
  }

  /** What a node says is what the active header and the metadata of its file say. */
  lemma NodeSays(fs: FileSystem, p: Path)
    ensures NodeAt(fs, p).Ok? <==> fs.Open(p).Ok? && (fs.Open(p).value.HasParent() ==> LocatorOf(fs.Open(p).value).Some?)
    ensures NodeAt(fs, p).Ok? ==>
              var d, n := fs.Open(p).value, NodeAt(fs, p).value;
              && n.dataWriteGuid == d.headers.Active().dataWriteGuid && n.fileWriteGuid == d.headers.Active().fileWriteGuid
              && n.path == p && n.virtualDiskSize == d.metadata.virtualDiskSize && n.blockSize == d.metadata.BlockSize()
              && (n.hasParent <==> d.HasParent()) && (n.parentLink.Some? <==> d.HasParent())
              && (n.parentLink.Some? ==>
                    var pl := LocatorOf(d).value;
                    n.parentLink.value == ParentLink(pl.locatorType, fs.linkage(pl), fs.resolve(p, pl)))
  {
    hide OpenDisk;
  }

  /** If the locator of the one file states an identity, it is the DataWriteGuid of the other's active header, or that is nil. */
  predicate IdentityMatches(fs: FileSystem, p: Path, next: Path)
    requires fs.Open(p).Ok? && fs.Open(next).Ok?
  {
    var pl := LocatorOf(fs.Open(p).value);
    pl.Some? && fs.linkage(pl.value).Some? ==>
      var actual := fs.Open(next).value.headers.Active().dataWriteGuid;
      actual == fs.linkage(pl.value).value || actual == NIL
  }

  /** Every file of the walk opens, and each states the identity of the next. */
  predicate IdentitiesMatch(fs: FileSystem, paths: seq<Path>) {
    && (forall i :: 0 <= i < |paths| ==> fs.Open(paths[i]).Ok?)
    && forall i :: 0 <= i < |paths| - 1 ==> IdentityMatches(fs, paths[i], paths[i + 1])
  }

  lemma LinkedIff(fs: FileSystem, paths: seq<Path>, nodes: seq<ChainNode>)
    requires NodesOf(fs, paths, nodes)
    ensures Linked(nodes) <==> IdentitiesMatch(fs, paths)
  {
    hide NodeAt, OpenDisk, FileSystem.Open;
    forall i | 0 <= i < |paths|
      ensures fs.Open(paths[i]).Ok? && NodeAt(fs, paths[i]) == Ok(nodes[i])
    {
      NodeSays(fs, paths[i]);
    }
    forall i | 0 <= i < |paths| - 1
      ensures IdentityMatches(fs, paths[i], paths[i + 1]) <==>
              (nodes[i].parentLink.Some? && nodes[i].parentLink.value.expectedDataWriteGuid.Some? ==>
                 nodes[i + 1].dataWriteGuid in {nodes[i].parentLink.value.expectedDataWriteGuid.value, NIL})
    {
      NodeSays(fs, paths[i]);
      NodeSays(fs, paths[i + 1]);
    }
  }

  /** A leaf has a chain exactly when paths lead from it to a root over different files, each stating the next one's identity. */
  lemma HasChainIff(fs: FileSystem, leaf: Path)
    ensures HasChain(fs, leaf) <==> exists paths: seq<Path> :: IsChain(fs, leaf, paths) && IdentitiesMatch(fs, paths)
  {
    hide NodeAt, FileSystem.Open, IdentitiesMatch, Linked;
    if HasChain(fs, leaf) {
      var paths: seq<Path>, nodes: seq<ChainNode> :| IsChain(fs, leaf, paths) && NodesOf(fs, paths, nodes) && Linked(nodes);
      LinkedIff(fs, paths, nodes);
    }
    if paths: seq<Path> :| IsChain(fs, leaf, paths) && IdentitiesMatch(fs, paths) {
      forall i | 0 <= i < |paths|
        ensures NodeAt(fs, paths[i]).Ok?
      {
        assert i < |paths| - 1 ==> LeadsTo(fs, paths[i], paths[i + 1]);
      }
      var nodes := seq(|paths|, i requires 0 <= i < |paths| && NodeAt(fs, paths[i]).Ok? => NodeAt(fs, paths[i]).value);
      LinkedIff(fs, paths, nodes);
    }
  }

  // ---- Walks are determined by the leaf ----

  lemma {:induction false} WalksAgree(fs: FileSystem, leaf: Path, a: seq<Path>, b: seq<Path>, i: nat)
    requires IsWalk(fs, leaf, a) && IsWalk(fs, leaf, b) && i < |a| && i < |b|
    ensures a[i] == b[i]
  {
    hide NodeAt;
    if i > 0 {
      WalksAgree(fs, leaf, a, b, i - 1);
      assert LeadsTo(fs, a[i - 1], a[i - 1 + 1]) && LeadsTo(fs, b[i - 1], b[i - 1 + 1]);
    }
  }

  /** Behind this path no walk goes on. */
  ghost predicate IsDeadEnd(fs: FileSystem, p: Path) {
    NodeAt(fs, p).Err? || NodeAt(fs, p).value.parentLink.None? || NodeAt(fs, p).value.parentLink.value.resolvedPath.None?
  }

  lemma DeadEndLeadsNowhere(fs: FileSystem, p: Path, next: Path)
    requires IsDeadEnd(fs, p) || (NodeAt(fs, p).Ok? && !NodeAt(fs, p).value.hasParent)
    ensures !LeadsTo(fs, p, next)
  {
    hide NodeAt;
  }

  /** A walk cannot go on behind a chain's root. */
  lemma ChainIsLongest(fs: FileSystem, leaf: Path, chain: seq<Path>, walk: seq<Path>)
    requires IsChain(fs, leaf, chain) && IsWalk(fs, leaf, walk)
    ensures |walk| <= |chain|
    ensures forall i :: 0 <= i < |walk| ==> walk[i] == chain[i]
  {
    hide NodeAt, LeadsTo;
    var n := |chain| - 1;
    if |walk| > |chain| {
      WalksAgree(fs, leaf, chain, walk, n);
      DeadEndLeadsNowhere(fs, walk[n], walk[n + 1]);
    }
    forall i | 0 <= i < |walk| && i < |chain|
      ensures walk[i] == chain[i]
    {
      WalksAgree(fs, leaf, walk, chain, i);
    }
  }

  lemma ChainIsUnique(fs: FileSystem, leaf: Path, a: seq<Path>, b: seq<Path>)
    requires IsChain(fs, leaf, a) && IsChain(fs, leaf, b)
    ensures a == b
  {
    hide IsChain, IsWalk;
    assert IsWalk(fs, leaf, a) && IsWalk(fs, leaf, b) by {
      ChainIsWalk(fs, leaf, a);
      ChainIsWalk(fs, leaf, b);
    }
    ChainIsLongest(fs, leaf, a, b);
    ChainIsLongest(fs, leaf, b, a);
  }

  lemma ChainIsWalk(fs: FileSystem, leaf: Path, a: seq<Path>)
    requires IsChain(fs, leaf, a)
    ensures IsWalk(fs, leaf, a)
  {
  }

  /** A leaf from which a file is met twice has no chain. */
  lemma CycleHasNoChain(fs: FileSystem, leaf: Path, walk: seq<Path>, chain: seq<Path>)
    requires IsWalk(fs, leaf, walk) && !Distinct(fs, walk)
    ensures !IsChain(fs, leaf, chain)
  {
    hide NodeAt, LeadsTo;
    var i, j :| 0 <= i < j < |walk| && fs.Canonical(walk[i]) == fs.Canonical(walk[j]);
    if IsChain(fs, leaf, chain) {
      ChainIsLongest(fs, leaf, chain, walk);
    }
  }

  // ---- Discovery ----

  ghost predicate HasChain(fs: FileSystem, leaf: Path) {
    exists paths: seq<Path>, nodes: seq<ChainNode> :: IsChain(fs, leaf, paths) && NodesOf(fs, paths, nodes) && Linked(nodes)
  }

  /** Why a walk is no chain: a file met again, one that does not open, a link that leads nowhere, or an identity that differs. */
  function WhyNot(fs: FileSystem, walk: seq<Path>): Error
    requires walk != []
  {
    if !Distinct(fs, walk) then InvalidStructure
    else
      match NodeAt(fs, walk[|walk| - 1])
      case Err(e) => e
      case Ok(n) => if n.hasParent then ParentNotFound else ParentGuidMismatch
  }

  /**
   * Walks from the leaf to the root. It ends for every file system, and succeeds exactly when the leaf has a chain
   * whose identities match; the nodes are then those of that chain.
   */
  method Discover(fs: FileSystem, leaf: Path) returns (r: Result<seq<ChainNode>>, ghost paths: seq<Path>)
    ensures r.Ok? ==> IsChain(fs, leaf, paths) && NodesOf(fs, paths, r.value) && Linked(r.value)
    ensures r.Ok? <==> HasChain(fs, leaf)
    ensures r.Err? ==> IsWalk(fs, leaf, paths) && r == Err(WhyNot(fs, paths))
  {
    hide NodeAt, LeadsTo, HasChain;
    var nodes: seq<ChainNode> := [];
    var visited: set<Path> := {};
    var current := leaf;
    paths := [];
    while true
      invariant IsWalk(fs, leaf, paths + [current])
      invariant Distinct(fs, paths) && NodesOf(fs, paths, nodes)
      invariant VisitedAre(fs, paths, visited) && visited <= fs.files.Keys
      decreases fs.files.Keys - visited
    {
      ghost var walk := paths + [current];
      var canonical := fs.Canonical(current);
      if canonical in visited {
        Revisited(fs, leaf, paths, current);
        return Err(InvalidStructure), walk;
      }
      var node := OpenNode(fs, current);
      if node.Err? {
        DeadEnd(fs, leaf, walk);
        NewFile(fs, paths, current, visited);
        return Err(node.error), walk;
      }
      OneMoreNode(fs, paths, nodes, current, node.value);
      NewFile(fs, paths, current, visited);
      visited := visited + {canonical};
      nodes := nodes + [node.value];
      paths := walk;
      if !node.value.hasParent {
        break;
      }
      if node.value.parentLink.value.resolvedPath.None? {
        DeadEnd(fs, leaf, walk);
        return Err(ParentNotFound), paths;
      }
      current := node.value.parentLink.value.resolvedPath.value;
      NodeLeads(fs, paths[|paths| - 1], current);
      OneMoreStep(fs, leaf, paths, current);
    }
    ReachedRoot(fs, leaf, paths, nodes);
    var linked := CheckLinkage(nodes);
    return if linked then Ok(nodes) else Err(ParentGuidMismatch), paths;
  }

  method OpenNode(fs: FileSystem, current: Path) returns (r: Result<ChainNode>)
    ensures r == NodeAt(fs, current)
    ensures r.Ok? ==> fs.Canonical(current) in fs.files && (r.value.hasParent <==> r.value.parentLink.Some?)
  {
    hide OpenDisk;
    var d := fs.Open(current);
    if d.Err? {
      return Err(d.error);
    }
    return NodeOf(fs, current, d.value);
  }

  method CheckLinkage(nodes: seq<ChainNode>) returns (ok: bool)
    ensures ok <==> Linked(nodes)
  {
    for i := 0 to |nodes|
      invariant forall k :: 0 <= k < i && k < |nodes| - 1 && nodes[k].parentLink.Some? &&
                            nodes[k].parentLink.value.expectedDataWriteGuid.Some? ==>
                  nodes[k + 1].dataWriteGuid in {nodes[k].parentLink.value.expectedDataWriteGuid.value, NIL}
    {
      if nodes[i].parentLink.Some? && nodes[i].parentLink.value.expectedDataWriteGuid.Some? {
        var expected := nodes[i].parentLink.value.expectedDataWriteGuid.value;
        var actual := if i + 1 < |nodes| then nodes[i + 1].dataWriteGuid else NIL;
        if actual != expected && actual != NIL {
          return false;
        }
      }
    }
    return true;
  }

  lemma OneMoreNode(fs: FileSystem, paths: seq<Path>, nodes: seq<ChainNode>, p: Path, node: ChainNode)
    requires NodesOf(fs, paths, nodes) && NodeAt(fs, p) == Ok(node)
    ensures NodesOf(fs, paths + [p], nodes + [node])
  {
    hide NodeAt;
  }

  ghost predicate VisitedAre(fs: FileSystem, paths: seq<Path>, visited: set<Path>) {
    && (forall i :: 0 <= i < |paths| ==> fs.Canonical(paths[i]) in visited)
    && (forall c :: c in visited ==> exists i :: 0 <= i < |paths| && fs.Canonical(paths[i]) == c)
  }

  lemma NewFile(fs: FileSystem, paths: seq<Path>, p: Path, visited: set<Path>)
    requires Distinct(fs, paths) && VisitedAre(fs, paths, visited) && fs.Canonical(p) !in visited
    ensures Distinct(fs, paths + [p]) && VisitedAre(fs, paths + [p], visited + {fs.Canonical(p)})
  {
    forall c | c in visited + {fs.Canonical(p)}
      ensures exists i :: 0 <= i < |paths + [p]| && fs.Canonical((paths + [p])[i]) == c
    {
      if c in visited {
        var i :| 0 <= i < |paths| && fs.Canonical(paths[i]) == c;
        assert fs.Canonical((paths + [p])[i]) == c;
      } else {
        assert fs.Canonical((paths + [p])[|paths|]) == c;
      }
    }
  }

  lemma NodeLeads(fs: FileSystem, p: Path, next: Path)
    requires NodeAt(fs, p).Ok? && NodeAt(fs, p).value.hasParent && NodeAt(fs, p).value.parentLink.Some?
    requires NodeAt(fs, p).value.parentLink.value.resolvedPath == Some(next)
    ensures LeadsTo(fs, p, next)
  {
  }

  lemma OneMoreStep(fs: FileSystem, leaf: Path, paths: seq<Path>, next: Path)
    requires IsWalk(fs, leaf, paths) && LeadsTo(fs, paths[|paths| - 1], next)
    ensures IsWalk(fs, leaf, paths + [next])
  {
    hide LeadsTo;
  }

  /** A walk that meets a file again has no chain. */
  lemma Revisited(fs: FileSystem, leaf: Path, paths: seq<Path>, current: Path)
    requires IsWalk(fs, leaf, paths + [current])
    requires exists i :: 0 <= i < |paths| && fs.Canonical(paths[i]) == fs.Canonical(current)
    ensures !Distinct(fs, paths + [current]) && !HasChain(fs, leaf)
  {
    hide NodeAt, LeadsTo, IsWalk;
    var walk := paths + [current];
    var i :| 0 <= i < |paths| && fs.Canonical(paths[i]) == fs.Canonical(current);
    assert fs.Canonical(walk[i]) == fs.Canonical(walk[|paths|]);
    forall chain
      ensures !IsChain(fs, leaf, chain)
    {
      CycleHasNoChain(fs, leaf, walk, chain);
    }
  }

  /** A walk whose last file cannot be opened, or leads nowhere, has no chain. */
  lemma DeadEnd(fs: FileSystem, leaf: Path, walk: seq<Path>)
    requires IsWalk(fs, leaf, walk)
    requires IsDeadEnd(fs, walk[|walk| - 1])
    requires NodeAt(fs, walk[|walk| - 1]).Ok? ==> NodeAt(fs, walk[|walk| - 1]).value.hasParent
    ensures !HasChain(fs, leaf)
  {
    hide NodeAt, LeadsTo, IsDeadEnd;
    var n := |walk| - 1;
    forall chain
      ensures !IsChain(fs, leaf, chain)
    {
      if IsChain(fs, leaf, chain) {
        ChainIsLongest(fs, leaf, chain, walk);
        if n < |chain| - 1 {
          DeadEndLeadsNowhere(fs, chain[n], chain[n + 1]);
        }
      }
    }
  }

  lemma ReachedRoot(fs: FileSystem, leaf: Path, paths: seq<Path>, nodes: seq<ChainNode>)
    requires IsChain(fs, leaf, paths) && NodesOf(fs, paths, nodes)
    ensures HasChain(fs, leaf) <==> Linked(nodes)
  {
    hide NodeAt, IsChain, Linked;
    if HasChain(fs, leaf) {
      var ps: seq<Path>, ns: seq<ChainNode> :| IsChain(fs, leaf, ps) && NodesOf(fs, ps, ns) && Linked(ns);
      ChainIsUnique(fs, leaf, paths, ps);
      assert ns == nodes;
    }
  }
}
