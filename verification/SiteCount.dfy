/** How much work a complete walk over a site takes: every directory once and every entry once. */
module SiteCount {
  import opened Optional
  import opened Split
  import opened Manifest
  import opened ManifestBuilder
  import opened SiteTree
  import opened SiteWalk

  /** Every file of a stored site can be reached in the store. */
  lemma SiteFileIsStored(c: Context, site: seq<FileEntry>, i: nat)
    requires Expected(c, site) && i < |site|
    ensures BytesAt(c.store, c.root, ComponentsOf(site[i])) == Some(site[i].bytes)
  {
    hide Acceptable, OidAt, FileAt, Parts;
    var p := ComponentsOf(site[i]);
    var k := |p| - 1;
    var q, n := p[..k], p[k];
    assert q + [n] == p && ProperPrefix(q, p);
    assert Inner(site, q);
    assert NodeOk(c.store, c.root, site, q);
    var t := c.store.trees[OidAt(c.store.trees, c.root, q).value];
    assert NameOk(c.store, c.root, site, q, t, n);
    FileIsAt(c, site, i);
    FileIsNoDirectory(c, site, i);
  }

  lemma FileIsAt(c: Context, site: seq<FileEntry>, i: nat)
    requires Acceptable(c.rules, c.limits, site) && i < |site|
    ensures FileAt(site, ComponentsOf(site[i])) == Some(site[i])
  {
    hide Consistent, NoConflicts, ComponentsOf, FileAt;
    var p := ComponentsOf(site[i]);
    FileAtFinds(site, p);
    var e := FileAt(site, p).value;
    var j :| 0 <= j < |site| && site[j] == e;
    PathIsJoined(site[i]);
    PathIsJoined(e);
    ConsistentParts(c.rules, c.limits, site);
  }

  lemma FileIsNoDirectory(c: Context, site: seq<FileEntry>, i: nat)
    requires Acceptable(c.rules, c.limits, site) && i < |site|
    ensures !Inner(site, ComponentsOf(site[i]))
  {
    hide Consistent, ComponentsOf;
    forall j | 0 <= j < |site| ensures !ProperPrefix(ComponentsOf(site[i]), ComponentsOf(site[j])) {
      assert !Conflicts(ComponentsOf(site[i]), ComponentsOf(site[j]));
    }
  }

  lemma SiteIsRead(c: Context, site: seq<FileEntry>, files: seq<FileEntry>, i: nat)
    requires Expected(c, site) && Exact(c, files) && i < |site| && forall k | 0 <= k < |files| :: files[k] in site
    ensures site[i] in files
  {
    hide Expected, BytesAt, FileOk, ComponentsOf, FileAt;
    SiteFileIsStored(c, site, i);
    assert Collected(files, ComponentsOf(site[i]));
    var k :| 0 <= k < |files| && ComponentsOf(files[k]) == ComponentsOf(site[i]);
    ExpectedAccepts(c, site);
    var j :| 0 <= j < |site| && site[j] == files[k];
    FileIsAt(c, site, i);
    FileIsAt(c, site, j);
  }

  lemma {:induction false} OncePerPath(s: seq<FileEntry>, x: FileEntry)
    requires DistinctPaths(s)
    ensures multiset(s)[x] == if x in s then 1 else 0
  {
    if s != [] {
      var k := |s| - 1;
      var init := s[..k];
      OncePerPath(init, x);
      assert forall i | 0 <= i < k :: init[i].path != s[k].path;
      assert s == init + [s[k]];
      assert multiset(s) == multiset(init) + multiset{s[k]};
    }
  }

  lemma SameElements(a: seq<FileEntry>, b: seq<FileEntry>)
    requires DistinctPaths(a) && DistinctPaths(b) && forall x :: x in a <==> x in b
    ensures multiset(a) == multiset(b)
  {
    hide DistinctPaths;
    forall x ensures multiset(a)[x] == multiset(b)[x] {
      OncePerPath(a, x);
      OncePerPath(b, x);
    }
  }

  lemma ExactIsDistinct(c: Context, files: seq<FileEntry>)
    requires Exact(c, files)
    ensures DistinctPaths(files)
  {
    hide BytesAt, FileOk, ComponentsOf;
  }

  // ----- Directories seen -----

  /** The directories a manifest spells, the root included. */
  function Dirs(site: seq<FileEntry>): set<Components> {
    {[]} + set i, k | 0 <= i < |site| && 0 <= k < |ComponentsOf(site[i])| :: ComponentsOf(site[i])[..k]
  }

  lemma DirsAreInner(site: seq<FileEntry>, q: Components)
    ensures q in Dirs(site) <==> Inner(site, q)
  {
    hide ComponentsOf;
    if i :| 0 <= i < |site| && ProperPrefix(q, ComponentsOf(site[i])) {
      assert q == ComponentsOf(site[i])[..|q|];
    }
  }

  function Parent(p: Components): Components
    requires p != []
  {
    p[..|p| - 1]
  }

  /**
   * The directories seen so far are closed upwards, hold the parents of the files read, and lie
   * nowhere in what is still to be read.
   */
  ghost predicate Visited(seen: set<Components>, at: seq<Components>, files: seq<FileEntry>, q: Components,
                          names: set<string>) {
    && [] in seen && q in seen && (forall i | 0 <= i < |at| :: at[i] in seen)
    && (forall x | x in seen && x != [] :: Parent(x) in seen)
    && (forall i | 0 <= i < |files| :: Parent(ComponentsOf(files[i])) in seen)
    && (forall x | x in seen :: !Claimed(at, x) && !Remaining(q, names, x))
  }

  lemma VisitStarts()
    ensures Visited({[]}, [[]], [], [], {})
  {
  }

  lemma VisitPop(seen: set<Components>, at: seq<Components>, files: seq<FileEntry>, q: Components, names: set<string>)
    requires at != [] && Visited(seen, at, files, q, {})
    ensures Visited(seen, at[..|at| - 1], files, at[|at| - 1], names)
  {
    hide ComponentsOf, ProperPrefix;
    var k := |at| - 1;
    forall x | x in seen ensures !Claimed(at[..k], x) && !Remaining(at[k], names, x) {
      assert !Claimed(at, x);
      assert forall i | 0 <= i < k :: at[..k][i] == at[i];
    }
  }

  /** A subdirectory is new when it is pushed. */
  lemma VisitPush(seen: set<Components>, at: seq<Components>, files: seq<FileEntry>, q: Components, names: set<string>,
                  n: string)
    requires Visited(seen, at, files, q, names) && n in names && Separate(at, files, q, names)
    ensures q + [n] !in seen && Visited(seen + {q + [n]}, at + [q + [n]], files, q, names - {n})
  {
    hide ComponentsOf, ProperPrefix, Claimed, DistinctPaths;
    var x := q + [n];
    BelowName(q, n, x);
    assert Remaining(q, names, x) && !Claimed(at, x);
    assert Parent(x) == q;
    forall y | y in seen + {x} ensures !Claimed(at + [x], y) && !Remaining(q, names - {n}, y) {
      ClaimedNext(at, x, y);
      BelowName(q, n, y);
    }
  }

  lemma VisitFile(seen: set<Components>, at: seq<Components>, files: seq<FileEntry>, q: Components, names: set<string>,
                  n: string, f: FileEntry)
    requires Visited(seen, at, files, q, names) && ComponentsOf(f) == q + [n]
    ensures Visited(seen, at, files + [f], q, names - {n})
  {
    hide ComponentsOf, ProperPrefix, Claimed;
    assert Parent(q + [n]) == q;
  }

  lemma {:induction false} SeenAbove(seen: set<Components>, x: Components, k: nat)
    requires x in seen && k <= |x| && forall y | y in seen && y != [] :: Parent(y) in seen
    ensures x[..k] in seen
    decreases |x|
  {
    if k == |x| {
      assert x[..k] == x;
    } else {
      SeenAbove(seen, Parent(x), k);
      assert Parent(x)[..k] == x[..k];
    }
  }

  /** A walk that is done has seen every directory of the site and read each of its files once. */
  lemma AllSeen(c: Context, site: seq<FileEntry>, seen: set<Components>, files: seq<FileEntry>, q: Components)
    requires Expected(c, site) && Exact(c, files) && (forall k | 0 <= k < |files| :: files[k] in site)
    requires seen <= Dirs(site) && Visited(seen, [], files, q, {})
    ensures seen == Dirs(site) && |files| == |site|
  {
    hide Expected, Exact, ComponentsOf, Dirs, DistinctPaths;
    forall d | d in Dirs(site) ensures d in seen {
      DirsAreInner(site, d);
      if d != [] {
        var i :| 0 <= i < |site| && ProperPrefix(d, ComponentsOf(site[i]));
        SiteIsRead(c, site, files, i);
        var j :| 0 <= j < |files| && files[j] == site[i];
        var p := Parent(ComponentsOf(files[j]));
        SeenAbove(seen, p, |d|);
        assert p[..|d|] == d;
      }
    }
    SameFiles(c, site, files);
    assert |multiset(files)| == |multiset(site)|;
  }

  lemma SameFiles(c: Context, site: seq<FileEntry>, files: seq<FileEntry>)
    requires Expected(c, site) && Exact(c, files) && forall k | 0 <= k < |files| :: files[k] in site
    ensures DistinctPaths(files) && DistinctPaths(site) && multiset(files) == multiset(site)
  {
    hide Expected, Exact, Consistent, NoConflicts, DistinctPaths;
    ExpectedAccepts(c, site);
    ConsistentParts(c.rules, c.limits, site);
    ExactIsDistinct(c, files);
    forall x ensures x in files <==> x in site {
      if x in site {
        var i :| 0 <= i < |site| && site[i] == x;
        SiteIsRead(c, site, files, i);
      }
    }
    SameElements(files, site);
  }

  // ----- Counting -----

  lemma {:induction false} SubsetCounts<T>(a: set<T>, b: set<T>)
    requires a <= b
    ensures |a| <= |b|
  {
    if a != {} {
      var x :| x in a;
      SubsetCounts(a - {x}, b - {x});
    }
  }

  /** While something is left to see, the site has more than was seen. */
  lemma DirectoryIsCounted(site: seq<FileEntry>, seen: set<Components>, x: Components)
    requires seen <= Dirs(site) && x in Dirs(site) && x !in seen
    ensures |seen| + 1 <= |Dirs(site)|
  {
    hide Dirs;
    SubsetCounts(seen + {x}, Dirs(site));
  }

  lemma FileIsCounted(site: seq<FileEntry>, files: seq<FileEntry>, f: FileEntry)
    requires DistinctPaths(files + [f]) && f in site && forall i | 0 <= i < |files| :: files[i] in site
    ensures |files| + 1 <= |site|
  {
    var all := files + [f];
    assert forall i | 0 <= i < |all| :: all[i] in site;
    PartOfSite(all, site);
  }
}
