/** Reading a stored site back: an iterative walk over Trees under work and artifact limits. */
module SiteReader {
  import opened Optional
  import opened Split
  import opened Text
  import opened Manifest
  import opened SiteTree
  import opened SiteWalk
  import opened SiteCount
  import Oid

  /** The walk's own budget on Trees and entries, or any other refusal. */
  datatype ReadError = TreeWork | Rejected

  datatype ReadResult = Read(files: seq<FileEntry>) | Failed(error: ReadError)

  datatype Work = Work(maxTreeNodes: nat, maxTreeEdges: nat)

  // ----- The walk -----

  /** Checks a Tree's names: each valid, and no two alike once case is folded. */
  method CheckNames(rules: Rules, names: set<string>) returns (ok: bool)
    ensures ok == NamesOk(rules, names)
  {
    hide ValidSegment;
    var left, spellings: map<string, string> := names, map[];
    while left != {}
      invariant left <= names
      invariant forall n | n in names - left ::
                  ValidSegment(rules, n) && rules.fold(n) in spellings && spellings[rules.fold(n)] == n
      invariant forall k | k in spellings :: spellings[k] in names - left && rules.fold(spellings[k]) == k
      decreases |left|
    {
      var n :| n in left;
      if !ValidSegment(rules, n) {
        return false;
      }
      var folded := rules.fold(n);
      if folded in spellings && spellings[folded] != n {
        return false;
      }
      spellings := spellings[folded := n];
      left := left - {n};
    }
    return true;
  }

  /** Reads one blob under what is left of the byte budgets. */
  method ReadBlob(blobs: map<string, Bytes>, oid: string, l: Limits, total: nat) returns (b: Option<Bytes>)
    ensures b.Some? ==>
              oid in blobs && b.value == blobs[oid] && |b.value| <= l.maxFileBytes
              && total + |b.value| <= l.maxTotalBytes
    ensures oid in blobs && |blobs[oid]| <= l.maxFileBytes && total + |blobs[oid]| <= l.maxTotalBytes ==> b.Some?
  {
    var remaining := if total <= l.maxTotalBytes then l.maxTotalBytes - total else 0;
    var least := if l.maxFileBytes < remaining then l.maxFileBytes else remaining;
    var readLimit := if least < 1 then 1 else least;
    if oid !in blobs || |blobs[oid]| > readLimit {
      return None;
    }
    if |blobs[oid]| > l.maxFileBytes || total + |blobs[oid]| > l.maxTotalBytes {
      return None;
    }
    return Some(blobs[oid]);
  }

  /** The walk's variables on an expected site. */
  ghost predicate Trusted(c: Context, site: seq<FileEntry>, at: seq<Components>, files: seq<FileEntry>, q: Components,
                          seen: set<Components>) {
    Expected(c, site) ==> OnSite(c, site, at, files) && Inner(site, q) && seen <= Dirs(site)
  }

  /** A site has more directories, or more entries, than the walk may take; all but the root are entries. */
  ghost predicate Exceeds(work: Work, site: seq<FileEntry>) {
    |Dirs(site)| > work.maxTreeNodes || |Dirs(site)| - 1 + |site| > work.maxTreeEdges
  }

  /** Where the walk stands: what is read, what is claimed, and that every entry was charged once. */
  ghost predicate Standing(c: Context, pending: seq<Pending>, files: seq<FileEntry>, edges: nat, total: nat,
                           at: seq<Components>, q: Components, names: set<string>, seen: set<Components>,
                           site: seq<FileEntry>) {
    && Exploring(c, pending, at, files, q, names) && Visited(seen, at, files, q, names)
       && Trusted(c, site, at, files, q, seen)
    && total == TotalBytes(files) && edges + 1 == |seen| + |files|
  }

  /** One entry of a Tree: charged, checked, then pushed or read. */
  method ReadEntry(c: Context, work: Work, tree: Pending, t: TreeObject, n: string,
                   pending: seq<Pending>, files: seq<FileEntry>, edges: nat, total: nat,
                   ghost at: seq<Components>, ghost q: Components, ghost names: set<string>,
                   ghost seen: set<Components>,
                   ghost site: seq<FileEntry>)
    returns (error: Option<ReadError>, pending': seq<Pending>, files': seq<FileEntry>, edges': nat, total': nat,
             ghost at': seq<Components>, ghost seen': set<Components>)
    requires Standing(c, pending, files, edges, total, at, q, names, seen, site)
    requires AtTree(c, q, t) && n in names && n in t && ValidSegment(c.rules, n) && tree.prefix == JoinPath(q)
             && tree.depth == |q|
    ensures edges' == edges + 1 && (error == Some(TreeWork) <==> edges' > work.maxTreeEdges)
    ensures error.None? ==> Standing(c, pending', files', edges', total', at', q, names - {n}, seen', site)
    ensures error.None? ==> |pending'| - |pending| == |seen'| - |seen|
    ensures error.Some? && Expected(c, site) ==> error.value.TreeWork? && Exceeds(work, site)
  {
    hide Exploring, AtTree, Expected, OnSite, Inner, JoinPath, ValidSegment, Oid.ParseOid, TotalBytes, ByteLen,
         Visited, Dirs;
    pending', files', edges', total', at', seen' := pending, files, edges + 1, total, at, seen;
    if Expected(c, site) {
      PathFits(c, site, q, t, n);
      EntryBelongs(c, site, q, t, n);
      EntryCounts(c, site, pending, files, at, q, names, seen, t, n);
    }
    if edges' > work.maxTreeEdges {
      return Some(TreeWork), pending', files', edges', total', at', seen';
    }
    var depth := tree.depth + 1;
    if depth > c.limits.maxDepth {
      return Some(Rejected), pending', files', edges', total', at', seen';
    }
    AtTreeSegments(c, q, t);
    AppendedIsJoin(c.rules, q, n);
    var path := Appended(tree.prefix, n);
    if ByteLen(path) > c.limits.maxPathBytes {
      return Some(Rejected), pending', files', edges', total', at', seen';
    }
    if Oid.ParseOid(t[n].oid) != Some(if t[n].TreeEntry? then Oid.Tree else Oid.Blob) {
      return Some(Rejected), pending', files', edges', total', at', seen';
    }
    match t[n]
    case TreeEntry(oid) =>
      PushTree(c, pending, at, files, q, names, t, n, Pending(oid, path, depth));
      SeparateOf(c, pending, at, files, q, names);
      VisitPush(seen, at, files, q, names, n);
      if Expected(c, site) {
        OnSitePush(c, site, at, files, q + [n]);
        DirsAreInner(site, q + [n]);
      }
      pending' := pending + [Pending(oid, path, depth)];
      at', seen' := at + [q + [n]], seen + {q + [n]};
      return None, pending', files', edges', total', at', seen';
    case BlobEntry(oid) =>
      ghost var f := FileEntry(path, true, if oid in c.store.blobs then c.store.blobs[oid] else []);
      if oid in c.store.blobs {
        FoundFile(c, q, t, n, f);
        AddFile(c, pending, at, files, q, names, t, n, f);
        VisitFile(seen, at, files, q, names, n, f);
        if Expected(c, site) { SizesFit(c, site, pending, at, files, q, names - {n}, f); }
      }
      if |files| + 1 > c.limits.maxFiles {
        return Some(Rejected), pending', files', edges', total', at', seen';
      }
      var bytes := ReadBlob(c.store.blobs, oid, c.limits, total);
      if bytes.None? {
        return Some(Rejected), pending', files', edges', total', at', seen';
      }
      total' := total + |bytes.value|;
      files' := files + [FileEntry(path, true, bytes.value)];
      TotalNext(files, f);
      if Expected(c, site) { OnSiteAdd(c, site, at, files, f); }
      return None, pending', files', edges', total', at', seen';
  }

  lemma SeparateOf(c: Context, pending: seq<Pending>, at: seq<Components>, files: seq<FileEntry>, q: Components,
                   names: set<string>)
    requires Exploring(c, pending, at, files, q, names)
    ensures Separate(at, files, q, names)
  {
    hide PendingOk, FileOk, Covered, Separate;
  }

  /** An entry about to be charged is one the site still has. */
  lemma EntryCounts(c: Context, site: seq<FileEntry>, pending: seq<Pending>, files: seq<FileEntry>, at: seq<Components>,
                    q: Components, names: set<string>, seen: set<Components>, t: TreeObject, n: string)
    requires Expected(c, site) && Exploring(c, pending, at, files, q, names) && Visited(seen, at, files, q, names)
    requires Trusted(c, site, at, files, q, seen) && AtTree(c, q, t) && n in names && n in t
    ensures |seen| + |files| + 1 <= |Dirs(site)| + |site|
  {
    hide Exploring, AtTree, Expected, Inner, JoinPath, Oid.ParseOid, Visited, Dirs;
    EntryBelongs(c, site, q, t, n);
    SeparateOf(c, pending, at, files, q, names);
    SubsetCounts(seen, Dirs(site));
    SeparateFiles(at, files, q, names);
    PartOfSite(files, site);
    if t[n].TreeEntry? {
      DirsAreInner(site, q + [n]);
      VisitPush(seen, at, files, q, names, n);
      DirectoryIsCounted(site, seen, q + [n]);
    } else {
      AtTreeSegments(c, q, t);
      NewFile(c, site, at, files, q, names, t, n);
    }
  }

  lemma SeparateFiles(at: seq<Components>, files: seq<FileEntry>, q: Components, names: set<string>)
    requires Separate(at, files, q, names)
    ensures DistinctPaths(files)
  {
    hide DistinctPaths, Claimed, Remaining;
  }

  lemma NewFile(c: Context, site: seq<FileEntry>, at: seq<Components>, files: seq<FileEntry>, q: Components,
                names: set<string>, t: TreeObject, n: string)
    requires Expected(c, site) && OnSite(c, site, at, files) && Inner(site, q) && AtTree(c, q, t)
    requires n in names && n in t && t[n].BlobEntry? && Separate(at, files, q, names)
    ensures |files| + 1 <= |site|
  {
    hide Expected, Separate, JoinPath, Inner, Oid.ParseOid, DistinctPaths, AtTree, ValidSegment;
    EntryBelongs(c, site, q, t, n);
    SiteNamesOk(c, site, q, t);
    var f := FileEntry(JoinPath(q + [n]), true, c.store.blobs[t[n].oid]);
    FoundFile(c, q, t, n, f);
    AddSeparate(at, files, q, names, n, f);
    SeparateFiles(at, files + [f], q, names - {n});
    FileIsCounted(site, files, f);
  }

  lemma AtTreeSegments(c: Context, q: Components, t: TreeObject)
    requires AtTree(c, q, t)
    ensures Segments(c.rules, q)
  {
    hide OidAt, Segments;
  }

  lemma OnSitePush(c: Context, site: seq<FileEntry>, at: seq<Components>, files: seq<FileEntry>, x: Components)
    requires OnSite(c, site, at, files) && Inner(site, x)
    ensures OnSite(c, site, at + [x], files)
  {
    hide Inner;
  }

  lemma OnSiteAdd(c: Context, site: seq<FileEntry>, at: seq<Components>, files: seq<FileEntry>, f: FileEntry)
    requires OnSite(c, site, at, files) && f in site
    ensures OnSite(c, site, at, files + [f])
  {
    hide Inner;
  }

  lemma FoundFile(c: Context, q: Components, t: TreeObject, n: string, f: FileEntry)
    requires AtTree(c, q, t) && n in t && t[n].BlobEntry? && t[n].oid in c.store.blobs && ValidSegment(c.rules, n)
    requires f == FileEntry(JoinPath(q + [n]), true, c.store.blobs[t[n].oid])
    ensures FileOk(c, f) && ComponentsOf(f) == q + [n]
  {
    hide OidAt, ValidSegment, JoinPath, Parts;
    var p := q + [n];
    assert Segments(c.rules, p);
    SegmentsJoinBack(c.rules, p);
    assert p[..|p| - 1] == q;
  }

  lemma SizesFit(c: Context, site: seq<FileEntry>, pending: seq<Pending>, at: seq<Components>, files: seq<FileEntry>,
                 q: Components, names: set<string>, f: FileEntry)
    requires Expected(c, site) && OnSite(c, site, at, files) && f in site
             && Exploring(c, pending, at, files + [f], q, names)
    ensures |files| + 1 <= c.limits.maxFiles && |f.bytes| <= c.limits.maxFileBytes
    ensures TotalBytes(files) + |f.bytes| <= c.limits.maxTotalBytes
  {
    hide Expected, Covered, PendingOk, FileOk, TotalBytes, Claimed, Remaining, Inner;
    ExpectedAccepts(c, site);
    FileFits(c, site, files, f);
  }

  /** One Tree: all its names are checked before any entry is taken. */
  method ReadTree(c: Context, work: Work, tree: Pending, t: TreeObject,
                  pending: seq<Pending>, files: seq<FileEntry>, edges: nat, total: nat,
                  ghost at: seq<Components>, ghost q: Components, ghost seen: set<Components>,
                  ghost site: seq<FileEntry>)
    returns (error: Option<ReadError>, pending': seq<Pending>, files': seq<FileEntry>, edges': nat, total': nat,
             ghost at': seq<Components>, ghost seen': set<Components>)
    requires Standing(c, pending, files, edges, total, at, q, t.Keys, seen, site)
    requires AtTree(c, q, t) && tree.prefix == JoinPath(q) && tree.depth == |q| && edges <= work.maxTreeEdges
    ensures error.None? ==> Standing(c, pending', files', edges', total', at', q, {}, seen', site)
    ensures error.None? ==> |pending'| - |pending| == |seen'| - |seen| && edges' <= work.maxTreeEdges
    ensures error.Some? && Expected(c, site) ==> error.value.TreeWork? && Exceeds(work, site)
  {
    hide Standing, AtTree, Expected, JoinPath, ValidSegment, Exceeds;
    pending', files', edges', total', at', seen' := pending, files, edges, total, at, seen;
    error := None;
    if Expected(c, site) {
      StandsInside(c, pending, files, edges, total, at, q, t.Keys, seen, site);
      SiteNamesOk(c, site, q, t);
    }
    var ok := CheckNames(c.rules, t.Keys);
    if !ok {
      return Some(Rejected), pending', files', edges', total', at', seen';
    }
    var names := t.Keys;
    while names != {}
      invariant error.None? && names <= t.Keys
                && Standing(c, pending', files', edges', total', at', q, names, seen', site)
      invariant |pending'| - |pending| == |seen'| - |seen| && edges' <= work.maxTreeEdges
      decreases |names|
    {
      var n :| n in names;
      error, pending', files', edges', total', at', seen' :=
        ReadEntry(c, work, tree, t, n, pending', files', edges', total', at', q, names, seen', site);
      if error.Some? {
        return;
      }
      names := names - {n};
    }
  }

  lemma StandsInside(c: Context, pending: seq<Pending>, files: seq<FileEntry>, edges: nat, total: nat,
                     at: seq<Components>, q: Components, names: set<string>, seen: set<Components>,
                     site: seq<FileEntry>)
    requires Standing(c, pending, files, edges, total, at, q, names, seen, site) && Expected(c, site)
    ensures Inner(site, q)
  {
    hide Exploring, Visited, Expected, Inner, TotalBytes, Dirs;
  }

  /**
   * The whole walk. On any store, success means exactly the files stored under the root, each once.
   * On the site of an acceptable manifest it fails exactly when the manifest has more directories,
   * or more directories below the root and files together, than the walk's own Tree budget.
   */
  method ReadSite(c: Context, work: Work, ghost site: seq<FileEntry>) returns (r: ReadResult)
    ensures r.Read? ==> Exact(c, r.files)
    ensures Expected(c, site) ==> (r.Failed? <==> Exceeds(work, site))
    ensures r.Failed? && Expected(c, site) ==> r.error.TreeWork?
    ensures r.Read? && Expected(c, site) ==> forall i | 0 <= i < |r.files| :: r.files[i] in site
  {
    hide Standing, AtTree, Expected, Inner, JoinPath, PendingOk, Exact, Exceeds;
    var pending: seq<Pending>, files: seq<FileEntry> := [Pending(c.root, "", 0)], [];
    var nodes: nat, edges: nat, total: nat := 0, 0, 0;
    ghost var at: seq<Components>, q: Components, seen: set<Components> := [[]], [], {[]};
    StandingStarts(c, site);
    while pending != []
      invariant Standing(c, pending, files, edges, total, at, q, {}, seen, site)
      invariant |at| == |pending| && nodes + |pending| == |seen| && nodes <= work.maxTreeNodes
                && edges <= work.maxTreeEdges
      decreases work.maxTreeNodes - nodes
    {
      var k := |pending| - 1;
      var tree := pending[k];
      StandingBounds(c, pending, files, edges, total, at, q, {}, seen, site);
      nodes := nodes + 1;
      if nodes > work.maxTreeNodes {
        TooManyNodes(work, site, |seen|);
        return Failed(TreeWork);
      }
      TopIsOk(c, pending, files, edges, total, at, q, seen, site);
      ghost var q0 := q;
      q := at[k];
      if Expected(c, site) {
        InnerIsStored(c, site, q, tree);
      }
      if tree.depth > c.limits.maxDepth {
        return Failed(Rejected);
      }
      if tree.oid !in c.store.trees {
        return Failed(Rejected);
      }
      var t := c.store.trees[tree.oid];
      TreeIsThere(c, tree, q);
      PopStanding(c, pending, files, edges, total, at, q0, seen, site);
      var error;
      error, pending, files, edges, total, at, seen :=
        ReadTree(c, work, tree, t, pending[..k], files, edges, total, at[..k], q, seen, site);
      if error.Some? {
        return Failed(error.value);
      }
      SameLength(c, pending, files, edges, total, at, q, seen, site);
    }
    DoneExploring(c, work, pending, files, nodes, edges, total, at, q, seen, site);
    return Read(files);
  }

  lemma StandingStarts(c: Context, site: seq<FileEntry>)
    ensures Standing(c, [Pending(c.root, "", 0)], [], 0, 0, [[]], [], {}, {[]}, site)
  {
    hide Exploring, Expected;
    ExploringStarts(c);
    VisitStarts();
  }

  lemma StandingBounds(c: Context, pending: seq<Pending>, files: seq<FileEntry>, edges: nat, total: nat,
                       at: seq<Components>, q: Components, names: set<string>, seen: set<Components>,
                       site: seq<FileEntry>)
    requires Standing(c, pending, files, edges, total, at, q, names, seen, site)
    ensures Expected(c, site) ==> |seen| <= |Dirs(site)|
  {
    hide Exploring, Visited, Expected, Inner, TotalBytes, Dirs;
    if Expected(c, site) { SubsetCounts(seen, Dirs(site)); }
  }

  lemma TooManyNodes(work: Work, site: seq<FileEntry>, nodes: nat)
    ensures work.maxTreeNodes < nodes <= |Dirs(site)| ==> Exceeds(work, site)
  {
    hide Dirs;
  }

  lemma TopIsOk(c: Context, pending: seq<Pending>, files: seq<FileEntry>, edges: nat, total: nat,
                at: seq<Components>, q: Components, seen: set<Components>, site: seq<FileEntry>)
    requires pending != [] && Standing(c, pending, files, edges, total, at, q, {}, seen, site)
    ensures |at| == |pending| && PendingOk(c, pending[|pending| - 1], at[|pending| - 1])
    ensures pending[|pending| - 1].prefix == JoinPath(at[|pending| - 1])
            && pending[|pending| - 1].depth == |at[|pending| - 1]|
    ensures Expected(c, site) ==> Inner(site, at[|pending| - 1])
  {
    hide Covered, Separate, FileOk, OidAt, JoinPath, Segments, Expected, Inner, Visited, TotalBytes, Dirs;
  }

  /** Taking the top Tree off the stack. */
  lemma PopStanding(c: Context, pending: seq<Pending>, files: seq<FileEntry>, edges: nat, total: nat,
                    at: seq<Components>, q: Components, seen: set<Components>, site: seq<FileEntry>)
    requires pending != [] && Standing(c, pending, files, edges, total, at, q, {}, seen, site) && |at| == |pending|
    requires pending[|pending| - 1].oid in c.store.trees
    ensures var k := |pending| - 1;
            Standing(c, pending[..k], files, edges, total, at[..k], at[k], c.store.trees[pending[k].oid].Keys, seen,
                     site)
  {
    hide Exploring, Visited, Expected, Inner, TotalBytes, Dirs;
    var k := |pending| - 1;
    PopPending(c, pending, at, files, q);
    VisitPop(seen, at, files, q, c.store.trees[pending[k].oid].Keys);
  }

  lemma SameLength(c: Context, pending: seq<Pending>, files: seq<FileEntry>, edges: nat, total: nat,
                   at: seq<Components>, q: Components, seen: set<Components>, site: seq<FileEntry>)
    requires Standing(c, pending, files, edges, total, at, q, {}, seen, site)
    ensures |at| == |pending|
  {
    hide Covered, Separate, FileOk, PendingOk, Visited, Trusted, TotalBytes;
  }

  lemma DoneExploring(c: Context, work: Work, pending: seq<Pending>, files: seq<FileEntry>, nodes: nat, edges: nat,
                      total: nat, at: seq<Components>, q: Components, seen: set<Components>, site: seq<FileEntry>)
    requires pending == [] && Standing(c, pending, files, edges, total, at, q, {}, seen, site)
    requires nodes == |seen| && nodes <= work.maxTreeNodes && edges <= work.maxTreeEdges
    ensures Exact(c, files)
    ensures Expected(c, site) ==> !Exceeds(work, site) && forall i | 0 <= i < |files| :: files[i] in site
  {
    hide Exploring, Visited, Expected, Inner, TotalBytes, Dirs, Exact;
    SameLength(c, pending, files, edges, total, at, q, seen, site);
    assert at == [];
    Explored(c, files, q);
    if Expected(c, site) { AllSeen(c, site, seen, files, q); }
  }

  lemma TreeIsThere(c: Context, x: Pending, q: Components)
    requires PendingOk(c, x, q) && x.oid in c.store.trees
    ensures AtTree(c, q, c.store.trees[x.oid])
  {
    hide OidAt, JoinPath, Segments;
  }

  lemma InnerIsStored(c: Context, site: seq<FileEntry>, q: Components, x: Pending)
    requires Expected(c, site) && Inner(site, q) && PendingOk(c, x, q)
    ensures x.oid in c.store.trees && |q| <= c.limits.maxDepth
  {
    hide OidAt, JoinPath, Segments, Acceptable, NameOk;
    assert NodeOk(c.store, c.root, site, q);
    InnerDepth(c, site, q);
  }

  lemma InnerDepth(c: Context, site: seq<FileEntry>, q: Components)
    requires Acceptable(c.rules, c.limits, site) && Inner(site, q)
    ensures |q| <= c.limits.maxDepth
  {
    hide ValidatePath, Compatible, Conflicts, TotalBytes;
    if q != [] {
      var i :| 0 <= i < |site| && ProperPrefix(q, ComponentsOf(site[i]));
      assert EntryOk(c.rules, c.limits, site[i]);
      PathIsItsSegments(c.rules, c.limits, site[i].path);
    }
  }
}
