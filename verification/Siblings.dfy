/** What a merge leaves of the other children of its parent (merge.rs, chain.rs). */
module Siblings {
  import opened Wrappers
  import opened Format
  import opened Bytes
  import opened Headers
  import opened Disks
  import opened Merge
  import opened Chains

  /**
   * Another child that states the parent's old identity has no chain over the merged parent any more, since the new identity
   * is neither that nor nil: what it was made over has changed.
   */
  lemma SiblingHasNoChain(fs: FileSystem, leaf: Path, next: Path, after: Buffer, was: Header, dataGuid: Guid, fileGuid: Guid)
    requires IdentityWritten(after, was, dataGuid, fileGuid) && dataGuid != was.dataWriteGuid && dataGuid != NIL
    requires next in fs.names && fs.names[next] in fs.files && fs.files[fs.names[next]] == after
    requires LeadsTo(fs, leaf, next)
    requires fs.linkage(LocatorOf(fs.Open(leaf).value).value) == Some(was.dataWriteGuid)
    ensures !HasChain(fs, leaf)
  {
    hide OpenDisk, LeadsTo, FileSystem.Open, NodeAt;
    HasChainIff(fs, leaf);
    LeadsToIff(fs, leaf, next);
    forall paths | IsChain(fs, leaf, paths) && IdentitiesMatch(fs, paths)
      ensures false
    {
      RootLeadsNowhere(fs, leaf, next, paths);
      WalksAgree(fs, leaf, paths, [leaf, next], 1);
      assert IdentityMatches(fs, paths[0], paths[1]);
      OpensIdentified(fs, next, after, was, dataGuid, fileGuid);
    }
  }

  lemma RootLeadsNowhere(fs: FileSystem, leaf: Path, next: Path, paths: seq<Path>)
    requires IsChain(fs, leaf, paths) && LeadsTo(fs, leaf, next)
    ensures |paths| > 1 && IsWalk(fs, leaf, paths) && IsWalk(fs, leaf, [leaf, next])
  {
    hide NodeAt;
  }

  lemma OpensIdentified(fs: FileSystem, p: Path, after: Buffer, was: Header, dataGuid: Guid, fileGuid: Guid)
    requires IdentityWritten(after, was, dataGuid, fileGuid) && fs.Open(p).Ok?
    requires p in fs.names && fs.names[p] in fs.files && fs.files[fs.names[p]] == after
    ensures fs.Open(p).value.headers.Active().dataWriteGuid == dataGuid
  {
    hide IdentityWritten, ReadPair;
    IdentityReads(after, was, dataGuid, fileGuid);
    OpenedParts(after, fs.Open(p).value);
  }
}
