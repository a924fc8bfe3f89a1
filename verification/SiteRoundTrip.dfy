/** Mapping a manifest to a site and reading the site undo each other. */
module SiteRoundTrip {
  import opened Optional
  import opened Manifest
  import opened ManifestBuilder
  import opened SiteTree
  import opened SiteWriter
  import opened SiteWalk
  import opened SiteCount
  import opened SiteReader

  /** What is read from a manifest's site is again acceptable, and is the same map from paths to bytes. */
  lemma ReadManifestIsTheSame(c: Context, site: seq<FileEntry>, files: seq<FileEntry>)
    requires Expected(c, site) && Exact(c, files) && forall k | 0 <= k < |files| :: files[k] in site
    ensures Acceptable(c.rules, c.limits, files) && FilesOf(files) == FilesOf(site)
  {
    hide Expected, Exact, FilesOf, Acceptable;
    ExpectedAccepts(c, site);
    SameFiles(c, site, files);
    AcceptanceIgnoresOrder(c.rules, c.limits, site, files);
    FilesIgnoreOrder(files, site);
  }

  datatype Outcome = SameManifest(files: map<string, Bytes>) | NameTaken | StoppedOnTreeWork

  /**
   * Stores an acceptable manifest, reads its site back and builds a manifest from what was read,
   * under the same artifact limits. The result is the same manifest, unless a name of one of its
   * objects stands for another object, or it has more directories or entries than the separate Tree
   * budget of the walk. It is never a different manifest.
   */
  method MapThenRead(repo: ObjectRepository, rules: Rules, l: Limits, work: Work,
                     entries: seq<FileEntry>)
    returns (r: Outcome)
    requires repo.Valid() && Acceptable(rules, l, entries)
    modifies repo
    ensures repo.Valid()
    ensures r ==
              if !(BlobsFit(repo.h, old(repo.blobs), entries)
                   && TreesFit(repo.h, old(repo.trees), Build(repo.h, entries)))
                 then NameTaken
                 else if Exceeds(work, entries) then StoppedOnTreeWork
                 else SameManifest(FilesOf(entries))
  {
    hide NamesKinds, Acceptable, Exact, FilesOf, Site, TreesFit, BlobsFit, Exceeds, Build;
    var root := MapRegularFiles(repo, entries);
    if root.None? {
      return NameTaken;
    }
    var c := Context(rules, l, repo.View(), root.value);
    var read := ReadSite(c, work, entries);
    if read.Failed? {
      return StoppedOnTreeWork;
    }
    ReadManifestIsTheSame(c, entries, read.files);
    var manifest := FromEntries(rules, l, read.files);
    return SameManifest(manifest.value);
  }
}
