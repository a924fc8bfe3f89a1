/** What a walk over a stored site has read and what it still has to read. */
module SiteWalk {
  import opened Optional
  import opened Split
  import opened Text
  import opened Manifest
  import opened SiteTree
  import Oid

  datatype Pending = Pending(oid: string, prefix: string, depth: nat)

  // ----- What has been read and what is still claimed -----

  datatype Context = Context(rules: Rules, limits: Limits, store: Store, root: string)

  predicate PendingOk(c: Context, x: Pending, q: Components) {
    && OidAt(c.store.trees, c.root, q) == Some(x.oid)
    && x.prefix == JoinPath(q) && x.depth == |q| && Segments(c.rules, q)
  }

  predicate FileOk(c: Context, f: FileEntry) {
    f.regular && Segments(c.rules, ComponentsOf(f)) && BytesAt(c.store, c.root, ComponentsOf(f)) == Some(f.bytes)
  }

  /** Paths below `q` whose next component is among `names`. */
  predicate Remaining(q: Components, names: set<string>, p: Components) { ProperPrefix(q, p) && p[|q|] in names }

  predicate Collected(files: seq<FileEntry>, p: Components) {
    exists i | 0 <= i < |files| :: ComponentsOf(files[i]) == p
  }

  predicate Claimed(at: seq<Components>, p: Components) { exists i | 0 <= i < |at| :: ProperPrefix(at[i], p) }

  /** Everything in the store is read, claimed by a pending Tree, or among the current Tree's remaining names. */
  ghost predicate Covered(c: Context, at: seq<Components>, files: seq<FileEntry>, q: Components, names: set<string>) {
    forall p: Components | p != [] && BytesAt(c.store, c.root, p).Some? ::
      Collected(files, p) || Claimed(at, p) || Remaining(q, names, p)
  }

  /** No path is claimed twice, and none that was read is claimed again. */
  ghost predicate Separate(at: seq<Components>, files: seq<FileEntry>, q: Components, names: set<string>) {
    && DistinctPaths(files)
    && (forall i | 0 <= i < |files| ::
          !Claimed(at, ComponentsOf(files[i])) && !Remaining(q, names, ComponentsOf(files[i])))
    && (forall p: Components :: Claimed(at, p) ==> !Remaining(q, names, p))
    && (forall i, j, p: Components | 0 <= i < j < |at| :: !(ProperPrefix(at[i], p) && ProperPrefix(at[j], p)))
  }

  ghost predicate Exploring(c: Context, pending: seq<Pending>, at: seq<Components>, files: seq<FileEntry>,
                            q: Components, names: set<string>) {
    && |at| == |pending| && (forall i | 0 <= i < |at| :: PendingOk(c, pending[i], at[i]))
    && (forall i | 0 <= i < |files| :: FileOk(c, files[i]))
    && Covered(c, at, files, q, names) && Separate(at, files, q, names)
  }

  // ----- Steps of the walk -----

  lemma ExploringStarts(c: Context)
    ensures Exploring(c, [Pending(c.root, "", 0)], [[]], [], [], {})
  {
    forall p: Components | p != [] ensures Claimed([[]], p) {
      assert ProperPrefix([[]][0], p);
    }
  }

  /** A file below a Tree goes through one of its names. */
  lemma GoesThrough(c: Context, q: Components, p: Components)
    requires ProperPrefix(q, p) && BytesAt(c.store, c.root, p).Some? && OidAt(c.store.trees, c.root, q).Some?
    ensures var oid := OidAt(c.store.trees, c.root, q).value;
            && oid in c.store.trees && p[|q|] in c.store.trees[oid]
            && (|p| == |q| + 1 ==> c.store.trees[oid][p[|q|]].BlobEntry?)
            && (|p| > |q| + 1 ==> c.store.trees[oid][p[|q|]].TreeEntry?)
  {
    hide OidAt;
    var k := |p| - 1;
    if |p| == |q| + 1 {
      assert p[..k] == q;
    } else {
      OidThrough(c.store.trees, c.root, q, p[..k]);
    }
  }

  lemma {:induction false} OidThrough(trees: map<string, TreeObject>, root: string, q: Components, p: Components)
    requires ProperPrefix(q, p) && OidAt(trees, root, p).Some?
    ensures OidAt(trees, root, q).Some?
    ensures var oid := OidAt(trees, root, q).value;
            oid in trees && p[|q|] in trees[oid] && trees[oid][p[|q|]].TreeEntry?
    decreases |q|
  {
    if q != [] {
      PrefixTail(q, p);
      OidThrough(trees, trees[root][p[0]].oid, q[1..], p[1..]);
    }
  }

  lemma {:induction false} OidBelow(trees: map<string, TreeObject>, root: string, q: Components, n: string)
    requires OidAt(trees, root, q).Some? && OidAt(trees, root, q).value in trees
    requires n in trees[OidAt(trees, root, q).value] && trees[OidAt(trees, root, q).value][n].TreeEntry?
    ensures OidAt(trees, root, q + [n]) == Some(trees[OidAt(trees, root, q).value][n].oid)
    decreases |q|
  {
    if q == [] {
      assert (q + [n])[1..] == [];
    } else {
      assert (q + [n])[1..] == q[1..] + [n];
      OidBelow(trees, trees[root][q[0]].oid, q[1..], n);
    }
  }

  /** Taking a pending Tree off the stack turns its claim into its own names. */
  lemma PopPending(c: Context, pending: seq<Pending>, at: seq<Components>, files: seq<FileEntry>, q0: Components)
    requires pending != [] && Exploring(c, pending, at, files, q0, {})
    requires pending[|pending| - 1].oid in c.store.trees
    ensures var k := |pending| - 1;
            Exploring(c, pending[..k], at[..k], files, at[k], c.store.trees[pending[k].oid].Keys)
  {
    hide BytesAt, FileOk, ComponentsOf, OidAt, Segments, JoinPath;
    var k := |pending| - 1;
    var q, names := at[k], c.store.trees[pending[k].oid].Keys;
    assert PendingOk(c, pending[k], q);
    forall p: Components | p != [] && BytesAt(c.store, c.root, p).Some?
      ensures Collected(files, p) || Claimed(at[..k], p) || Remaining(q, names, p)
    {
      if Claimed(at, p) && !Collected(files, p) {
        var i :| 0 <= i < |at| && ProperPrefix(at[i], p);
        if i < k { assert at[..k][i] == at[i]; } else { GoesThrough(c, q, p); }
      }
    }
    forall p: Components ensures Claimed(at[..k], p) ==> Claimed(at, p) && !Remaining(q, names, p) {
      if Claimed(at[..k], p) {
        var i :| 0 <= i < k && ProperPrefix(at[..k][i], p);
        assert at[i] == at[..k][i];
      }
    }
    forall p: Components ensures Remaining(q, names, p) ==> Claimed(at, p) {
      if Remaining(q, names, p) { assert ProperPrefix(at[k], p); }
    }
  }

  predicate Below(q: Components, n: string, p: Components) { ProperPrefix(q, p) && p[|q|] == n }

  lemma BelowName(q: Components, n: string, p: Components)
    ensures ProperPrefix(q + [n], p) <==> Below(q, n, p) && |p| > |q| + 1
    ensures Below(q, n, p) && |p| == |q| + 1 <==> p == q + [n]
  {
    var x := q + [n];
    if ProperPrefix(x, p) {
      assert p[..|q|] == p[..|x|][..|q|] && x[..|q|] == q;
      assert p[|q|] == p[..|x|][|q|];
    }
    if Below(q, n, p) { assert p[..|q| + 1] == p[..|q|] + [p[|q|]]; }
  }

  lemma ClaimedNext(at: seq<Components>, x: Components, p: Components)
    ensures Claimed(at + [x], p) <==> Claimed(at, p) || ProperPrefix(x, p)
  {
    hide ProperPrefix;
    var n := at + [x];
    if i :| 0 <= i < |at| && ProperPrefix(at[i], p) { assert n[i] == at[i]; }
    if ProperPrefix(x, p) { assert n[|at|] == x; }
  }

  /** The Tree being read, as a fact about the store. */
  predicate AtTree(c: Context, q: Components, t: TreeObject) {
    var oid := OidAt(c.store.trees, c.root, q);
    oid.Some? && oid.value in c.store.trees && c.store.trees[oid.value] == t && Segments(c.rules, q)
  }

  lemma PushSeparate(at: seq<Components>, files: seq<FileEntry>, q: Components, names: set<string>, n: string)
    requires Separate(at, files, q, names) && n in names
    ensures Separate(at + [q + [n]], files, q, names - {n})
  {
    hide ComponentsOf, ProperPrefix;
    var x := q + [n];
    forall p: Components ensures (ProperPrefix(x, p) ==> Remaining(q, names, p) && !Remaining(q, names - {n}, p))
                                 && (Claimed(at + [x], p) <==> Claimed(at, p) || ProperPrefix(x, p))
                                 && (Remaining(q, names - {n}, p) ==> Remaining(q, names, p)) {
      BelowName(q, n, p);
      ClaimedNext(at, x, p);
    }
    forall i, j, p: Components | 0 <= i < j < |at + [x]|
      ensures !(ProperPrefix((at + [x])[i], p) && ProperPrefix((at + [x])[j], p)) {
      if j == |at| && ProperPrefix(at[i], p) { assert Claimed(at, p); }
    }
  }

  /** A subtree's name moves from the remaining names to the pending Trees. */
  lemma PushTree(c: Context, pending: seq<Pending>, at: seq<Components>, files: seq<FileEntry>, q: Components,
                 names: set<string>, t: TreeObject, n: string, x: Pending)
    requires Exploring(c, pending, at, files, q, names) && AtTree(c, q, t) && n in names && n in t && t[n].TreeEntry?
    requires x == Pending(t[n].oid, JoinPath(q + [n]), |q| + 1) && ValidSegment(c.rules, n)
    ensures Exploring(c, pending + [x], at + [q + [n]], files, q, names - {n})
  {
    hide BytesAt, FileOk, ComponentsOf, OidAt, JoinPath, Separate, ProperPrefix, ValidSegment;
    OidBelow(c.store.trees, c.root, q, n);
    assert Segments(c.rules, q + [n]);
    PushSeparate(at, files, q, names, n);
    forall p: Components | p != [] && BytesAt(c.store, c.root, p).Some?
      ensures Collected(files, p) || Claimed(at + [q + [n]], p) || Remaining(q, names - {n}, p)
    {
      ClaimedNext(at, q + [n], p);
      BelowName(q, n, p);
      if Below(q, n, p) { GoesThrough(c, q, p); LongerThan(q, p); }
    }
  }

  lemma LongerThan(q: Components, p: Components)
    requires ProperPrefix(q, p)
    ensures |p| > |q|
  {
  }

  lemma CollectedNext(files: seq<FileEntry>, f: FileEntry, p: Components)
    ensures Collected(files + [f], p) <==> Collected(files, p) || ComponentsOf(f) == p
  {
    hide ComponentsOf;
    var n := files + [f];
    if i :| 0 <= i < |files| && ComponentsOf(files[i]) == p { assert n[i] == files[i]; }
    assert n[|files|] == f;
  }

  lemma AddSeparate(at: seq<Components>, files: seq<FileEntry>, q: Components, names: set<string>, n: string,
                    f: FileEntry)
    requires Separate(at, files, q, names) && n in names && ComponentsOf(f) == q + [n]
    ensures Separate(at, files + [f], q, names - {n})
  {
    hide ComponentsOf, ProperPrefix, Claimed;
    BelowName(q, n, q + [n]);
    assert Remaining(q, names, q + [n]) && !Remaining(q, names - {n}, q + [n]);
    var all := files + [f];
    forall i, j | 0 <= i < j < |all| ensures all[i].path != all[j].path {
      if j == |files| { SamePath(files[i], f); }
    }
    forall i | 0 <= i < |all|
      ensures !Claimed(at, ComponentsOf(all[i])) && !Remaining(q, names - {n}, ComponentsOf(all[i])) {
      if i < |files| { assert all[i] == files[i]; }
    }
  }

  lemma SamePath(a: FileEntry, b: FileEntry)
    ensures a.path == b.path ==> ComponentsOf(a) == ComponentsOf(b)
  {
  }

  /** A file's name moves from the remaining names to what has been read. */
  lemma AddFile(c: Context, pending: seq<Pending>, at: seq<Components>, files: seq<FileEntry>, q: Components,
                names: set<string>, t: TreeObject, n: string, f: FileEntry)
    requires Exploring(c, pending, at, files, q, names) && AtTree(c, q, t) && n in names && n in t && t[n].BlobEntry?
    requires FileOk(c, f) && ComponentsOf(f) == q + [n]
    ensures Exploring(c, pending, at, files + [f], q, names - {n})
  {
    hide BytesAt, FileOk, ComponentsOf, OidAt, Separate, PendingOk, ProperPrefix;
    AddSeparate(at, files, q, names, n, f);
    forall p: Components | p != [] && BytesAt(c.store, c.root, p).Some?
      ensures Collected(files + [f], p) || Claimed(at, p) || Remaining(q, names - {n}, p)
    {
      CollectedNext(files, f, p);
      BelowName(q, n, p);
      if Below(q, n, p) { GoesThrough(c, q, p); LongerThan(q, p); }
    }
  }

  /** With nothing pending the files read are exactly the files stored. */
  ghost predicate Exact(c: Context, files: seq<FileEntry>) {
    && DistinctPaths(files) && (forall i | 0 <= i < |files| :: FileOk(c, files[i]))
    && forall p: Components | p != [] && BytesAt(c.store, c.root, p).Some? :: Collected(files, p)
  }

  lemma Explored(c: Context, files: seq<FileEntry>, q: Components)
    requires Exploring(c, [], [], files, q, {})
    ensures Exact(c, files)
  {
    hide BytesAt, FileOk, ComponentsOf;
    assert forall p: Components :: !Claimed([], p);
  }

  // ----- A site stored from an acceptable manifest -----

  /** The store holds the site of an acceptable manifest; what is pending and read belongs to it. */
  ghost predicate Expected(c: Context, site: seq<FileEntry>) {
    Site(c.store, c.root, site) && Acceptable(c.rules, c.limits, site)
  }

  ghost predicate OnSite(c: Context, site: seq<FileEntry>, at: seq<Components>, files: seq<FileEntry>) {
    && (forall i | 0 <= i < |at| :: Inner(site, at[i]))
    && (forall i | 0 <= i < |files| :: files[i] in site)
  }

  /** Every name of a site's Tree lies on the way to one of its files. */
  lemma NameLeads(c: Context, site: seq<FileEntry>, q: Components, t: TreeObject, n: string)
    requires Expected(c, site) && Inner(site, q) && AtTree(c, q, t) && n in t
    ensures NameOk(c.store, c.root, site, q, t, n)
    ensures exists i | 0 <= i < |site| :: Through(q + [n], ComponentsOf(site[i]))
  {
    hide Acceptable, NameOk, OidAt, ComponentsOf, Segments, FileAt, ProperPrefix;
    assert NodeOk(c.store, c.root, site, q);
    NamePath(c, site, q, t, n);
  }

  predicate Through(x: Components, p: Components) { x == p || ProperPrefix(x, p) }

  lemma NamePath(c: Context, site: seq<FileEntry>, q: Components, t: TreeObject, n: string)
    requires NameOk(c.store, c.root, site, q, t, n) && n in t
    ensures exists i | 0 <= i < |site| :: Through(q + [n], ComponentsOf(site[i]))
  {
    hide ComponentsOf, FileAt, OidAt, ProperPrefix, Oid.ParseOid;
    FileAtFinds(site, q + [n]);
  }

  predicate NamesOk(rules: Rules, names: set<string>) {
    && (forall n | n in names :: ValidSegment(rules, n))
    && (forall m, n | m in names && n in names && rules.fold(m) == rules.fold(n) :: m == n)
  }

  lemma SegmentAt(c: Context, site: seq<FileEntry>, i: nat, q: Components, n: string)
    requires Acceptable(c.rules, c.limits, site) && i < |site| && Through(q + [n], ComponentsOf(site[i]))
    ensures var p := ComponentsOf(site[i]);
            && |q| < |p| <= c.limits.maxDepth && p[..|q|] == q && p[|q|] == n && ValidSegment(c.rules, n)
            && ByteLen(site[i].path) <= c.limits.maxPathBytes && Segments(c.rules, p)
  {
    hide ValidatePath, ValidSegment, Collides, Conflicts, TotalBytes;
    var p := ComponentsOf(site[i]);
    assert EntryOk(c.rules, c.limits, site[i]);
    PathIsItsSegments(c.rules, c.limits, site[i].path);
    BelowName(q, n, p);
  }

  lemma SiteNamesOk(c: Context, site: seq<FileEntry>, q: Components, t: TreeObject)
    requires Expected(c, site) && Inner(site, q) && AtTree(c, q, t)
    ensures NamesOk(c.rules, t.Keys)
  {
    hide Expected, AtTree, NameOk, ValidSegment, ComponentsOf, Through, Inner;
    ExpectedAccepts(c, site);
    forall n | n in t ensures ValidSegment(c.rules, n) {
      NameLeads(c, site, q, t, n);
      var i :| 0 <= i < |site| && Through(q + [n], ComponentsOf(site[i]));
      SegmentAt(c, site, i, q, n);
    }
    forall m, n | m in t && n in t && c.rules.fold(m) == c.rules.fold(n) ensures m == n {
      NameLeads(c, site, q, t, m);
      NameLeads(c, site, q, t, n);
      var i :| 0 <= i < |site| && Through(q + [m], ComponentsOf(site[i]));
      var j :| 0 <= j < |site| && Through(q + [n], ComponentsOf(site[j]));
      SegmentAt(c, site, i, q, m);
      SegmentAt(c, site, j, q, n);
      SiblingsAgree(c, site, i, j, |q|);
    }
  }

  lemma ExpectedAccepts(c: Context, site: seq<FileEntry>)
    requires Expected(c, site)
    ensures Acceptable(c.rules, c.limits, site)
  {
    hide Site, Acceptable;
  }

  lemma SiblingsAgree(c: Context, site: seq<FileEntry>, i: nat, j: nat, k: nat)
    requires Acceptable(c.rules, c.limits, site) && i < |site| && j < |site|
    requires k < |ComponentsOf(site[i])| && k < |ComponentsOf(site[j])|
    requires ComponentsOf(site[i])[..k] == ComponentsOf(site[j])[..k]
    requires c.rules.fold(ComponentsOf(site[i])[k]) == c.rules.fold(ComponentsOf(site[j])[k])
    ensures ComponentsOf(site[i])[k] == ComponentsOf(site[j])[k]
  {
    hide EntryOk, ComponentsOf, Conflicts, TotalBytes;
    if i != j {
      if i < j {
        assert Compatible(c.rules, site[i], site[j]);
        assert !CollidesAt(c.rules, ComponentsOf(site[i]), ComponentsOf(site[j]), k);
      } else {
        assert Compatible(c.rules, site[j], site[i]);
        assert !CollidesAt(c.rules, ComponentsOf(site[j]), ComponentsOf(site[i]), k);
      }
    }
  }

  // ----- Paths as the walk builds them -----

  lemma {:induction false} JoinConcat(a: Components, b: Components)
    requires a != [] && b != []
    ensures Join(a + b, '/') == Join(a, '/') + "/" + Join(b, '/')
    decreases |a|
  {
    if |a| == 1 {
      assert (a + b)[1..] == b;
    } else {
      assert (a + b)[1..] == a[1..] + b;
      JoinConcat(a[1..], b);
    }
  }

  function Appended(prefix: string, n: string): string { if prefix == "" then n else prefix + "/" + n }

  lemma AppendedIsJoin(rules: Rules, q: Components, n: string)
    requires Segments(rules, q)
    ensures Appended(JoinPath(q), n) == JoinPath(q + [n])
  {
    hide Segments, Join;
    if q != [] {
      EmptyIsNoPath(rules, q);
      JoinConcat(q, [n]);
      JoinOne([n]);
    } else {
      assert q + [n] == [n];
      JoinOne([n]);
    }
  }

  lemma JoinOne(cs: Components)
    requires |cs| == 1
    ensures Join(cs, '/') == cs[0]
  {
  }

  lemma ThroughIsShorter(x: Components, p: Components)
    requires x != [] && Through(x, p)
    ensures ByteLen(JoinPath(x)) <= ByteLen(JoinPath(p))
  {
    hide Join, ByteLen;
    if x != p {
      var rest := p[|x|..];
      assert p == x + rest;
      JoinConcat(x, rest);
      ByteLenConcat(Join(x, '/') + "/", Join(rest, '/'));
      ByteLenConcat(Join(x, '/'), "/");
    }
  }

  /** Where the walk stands on an expected site, its path and depth checks pass. */
  lemma PathFits(c: Context, site: seq<FileEntry>, q: Components, t: TreeObject, n: string)
    requires Expected(c, site) && Inner(site, q) && AtTree(c, q, t) && n in t
    ensures |q| + 1 <= c.limits.maxDepth && ByteLen(JoinPath(q + [n])) <= c.limits.maxPathBytes
  {
    hide Expected, AtTree, NameOk, ValidSegment, ComponentsOf, Through, Inner, JoinPath, Segments, ByteLen;
    ExpectedAccepts(c, site);
    NameLeads(c, site, q, t, n);
    var i :| 0 <= i < |site| && Through(q + [n], ComponentsOf(site[i]));
    SegmentAt(c, site, i, q, n);
    ThroughIsShorter(q + [n], ComponentsOf(site[i]));
    PathIsJoined(site[i]);
  }

  lemma PathIsJoined(e: FileEntry)
    ensures JoinPath(ComponentsOf(e)) == e.path
  {
    JoinParts(e.path, '/');
  }

  /** On an expected site an entry is of the kind its identifier says, and a file is the manifest's own. */
  lemma EntryBelongs(c: Context, site: seq<FileEntry>, q: Components, t: TreeObject, n: string)
    requires Expected(c, site) && Inner(site, q) && AtTree(c, q, t) && n in t
    ensures t[n].TreeEntry? ==> Oid.ParseOid(t[n].oid) == Some(Oid.Tree) && Inner(site, q + [n])
    ensures t[n].BlobEntry? ==> Oid.ParseOid(t[n].oid) == Some(Oid.Blob) && t[n].oid in c.store.blobs
    ensures t[n].BlobEntry? ==> FileEntry(JoinPath(q + [n]), true, c.store.blobs[t[n].oid]) in site
  {
    hide Expected, AtTree, ComponentsOf, Inner, JoinPath, FileAt, Oid.ParseOid, OidAt, Through;
    NameLeads(c, site, q, t, n);
    if t[n].BlobEntry? {
      FileAtFinds(site, q + [n]);
      var e := FileAt(site, q + [n]).value;
      PathIsJoined(e);
      ExpectedAccepts(c, site);
      RegularOf(c, site, e);
    }
  }

  lemma RegularOf(c: Context, site: seq<FileEntry>, e: FileEntry)
    requires Acceptable(c.rules, c.limits, site) && e in site
    ensures e.regular && |e.bytes| <= c.limits.maxFileBytes
  {
    hide ValidatePath, Compatible, Conflicts, TotalBytes;
    var i :| 0 <= i < |site| && site[i] == e;
    assert EntryOk(c.rules, c.limits, site[i]);
  }

  lemma {:induction false} PartOfSite(files: seq<FileEntry>, site: seq<FileEntry>)
    requires DistinctPaths(files) && forall i | 0 <= i < |files| :: files[i] in site
    ensures TotalBytes(files) <= TotalBytes(site) && |files| <= |site|
    decreases |files|
  {
    if files != [] {
      var k := |files| - 1;
      var j :| 0 <= j < |site| && site[j] == files[k];
      forall i | 0 <= i < k ensures files[..k][i] in Without(site, j) {
        StillThere(site, j, files[i]);
      }
      PartOfSite(files[..k], Without(site, j));
      TotalWithout(site, j);
    }
  }

  lemma StillThere(site: seq<FileEntry>, j: nat, e: FileEntry)
    requires j < |site| && e in site && e != site[j]
    ensures e in Without(site, j)
  {
    var i :| 0 <= i < |site| && site[i] == e;
    var w := Without(site, j);
    if i < j { assert w[i] == e; } else { assert w[i - 1] == e; }
  }

  /** So its size checks pass too. */
  lemma FileFits(c: Context, site: seq<FileEntry>, files: seq<FileEntry>, f: FileEntry)
    requires Acceptable(c.rules, c.limits, site) && f in site && (forall i | 0 <= i < |files| :: files[i] in site)
    requires DistinctPaths(files + [f])
    ensures |files| + 1 <= c.limits.maxFiles && |f.bytes| <= c.limits.maxFileBytes
    ensures TotalBytes(files) + |f.bytes| <= c.limits.maxTotalBytes
  {
    hide EntryOk, Compatible, Conflicts, TotalBytes;
    var all := files + [f];
    RegularOf(c, site, f);
    forall i | 0 <= i < |all| ensures all[i] in site {
    }
    PartOfSite(all, site);
    TotalNext(files, f);
  }

  lemma TotalNext(files: seq<FileEntry>, f: FileEntry)
    ensures TotalBytes(files + [f]) == TotalBytes(files) + |f.bytes|
  {
    assert (files + [f])[..|files|] == files;
  }
}
