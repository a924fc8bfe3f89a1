/** Site trees: directories built from file paths, stored as nested Tree objects, and looked up again. */
module SiteTree {
  import opened Optional
  import opened Manifest
  import Oid

  datatype Entry = BlobEntry(oid: string) | TreeEntry(oid: string)

  type TreeObject = map<string, Entry>

  /** The content hashes. Nothing is assumed of them beyond the kind that is part of every name. */
  datatype Hash = Hash(blob: Bytes -> string, tree: TreeObject -> string)

  ghost predicate NamesKinds(h: Hash) {
    && (forall a :: Oid.ParseOid(h.blob(a)) == Some(Oid.Blob))
    && (forall a :: Oid.ParseOid(h.tree(a)) == Some(Oid.Tree))
  }

  datatype Store = Store(blobs: map<string, Bytes>, trees: map<string, TreeObject>)

  // ----- Directories -----

  /** A directory under construction. One name may be in both maps. */
  datatype Dir = Dir(blobs: map<string, string>, dirs: map<string, Dir>)

  const EMPTY := Dir(map[], map[])

  function Sub(d: Dir, name: string): Dir { if name in d.dirs then d.dirs[name] else EMPTY }

  function Insert(d: Dir, cs: Components, oid: string): Dir
    requires cs != []
    decreases |cs|
  {
    if |cs| == 1 then d.(blobs := d.blobs[cs[0] := oid])
    else d.(dirs := d.dirs[cs[0] := Insert(Sub(d, cs[0]), cs[1..], oid)])
  }

  predicate HasDir(d: Dir, q: Components)
    decreases |q|
  {
    q == [] || (q[0] in d.dirs && HasDir(d.dirs[q[0]], q[1..]))
  }

  function DirAt(d: Dir, q: Components): Dir
    requires HasDir(d, q)
    decreases |q|
  {
    if q == [] then d else DirAt(d.dirs[q[0]], q[1..])
  }

  function BlobAt(d: Dir, p: Components): Option<string>
    requires p != []
    decreases |p|
  {
    if |p| == 1 then (if p[0] in d.blobs then Some(d.blobs[p[0]]) else None)
    else if p[0] in d.dirs then BlobAt(d.dirs[p[0]], p[1..])
    else None
  }

  predicate ProperPrefix(q: Components, p: Components) { |q| < |p| && p[..|q|] == q }

  /** Inserting a file adds its directories and its blob, and nothing else. */
  lemma {:induction false} InsertAdds(d: Dir, cs: Components, oid: string, q: Components)
    requires cs != []
    ensures HasDir(Insert(d, cs, oid), q) <==> HasDir(d, q) || ProperPrefix(q, cs)
    ensures q != [] ==> BlobAt(Insert(d, cs, oid), q) == if q == cs then Some(oid) else BlobAt(d, q)
    decreases |cs|
  {
    if q != [] && |cs| > 1 && q[0] == cs[0] {
      InsertAdds(Sub(d, cs[0]), cs[1..], oid, q[1..]);
      PrefixTail(q, cs);
      assert q == [q[0]] + q[1..] && cs == [cs[0]] + cs[1..];
      if cs[0] !in d.dirs { EmptyHasNothing(q[1..]); }
    } else if q != [] {
      assert q == [q[0]] + q[1..] && cs == [cs[0]] + cs[1..];
      PrefixTail(q, cs);
    }
  }

  lemma PrefixTail(q: Components, p: Components)
    requires q != [] && p != []
    ensures ProperPrefix(q, p) <==> q[0] == p[0] && ProperPrefix(q[1..], p[1..])
  {
    if ProperPrefix(q, p) {
      assert p[..|q|][0] == q[0];
      assert p[1..][..|q| - 1] == p[..|q|][1..];
    }
    if q[0] == p[0] && ProperPrefix(q[1..], p[1..]) {
      assert p[..|q|] == [p[0]] + p[1..][..|q| - 1];
      assert q == [q[0]] + q[1..];
    }
  }

  lemma EmptyHasNothing(q: Components)
    ensures HasDir(EMPTY, q) <==> q == []
    ensures q != [] ==> BlobAt(EMPTY, q) == None
  {
  }

  // ----- What a list of files spells -----

  predicate Inner(entries: seq<FileEntry>, q: Components) {
    q == [] || exists i | 0 <= i < |entries| :: ProperPrefix(q, ComponentsOf(entries[i]))
  }

  function FileAt(entries: seq<FileEntry>, p: Components): Option<FileEntry> {
    if entries == [] then None
    else if ComponentsOf(entries[|entries| - 1]) == p then Some(entries[|entries| - 1])
    else FileAt(entries[..|entries| - 1], p)
  }

  lemma {:induction false} FileAtFinds(entries: seq<FileEntry>, p: Components)
    ensures FileAt(entries, p).Some? ==>
              FileAt(entries, p).value in entries && ComponentsOf(FileAt(entries, p).value) == p
    ensures FileAt(entries, p).None? ==> forall i | 0 <= i < |entries| :: ComponentsOf(entries[i]) != p
  {
    hide ComponentsOf;
    if entries != [] {
      var k := |entries| - 1;
      FileAtFinds(entries[..k], p);
      assert entries == entries[..k] + [entries[k]];
    }
  }

  /** The directory built from the entries, one insertion each. */
  function Build(h: Hash, entries: seq<FileEntry>): Dir {
    if entries == [] then EMPTY
    else
      var e := entries[|entries| - 1];
      Insert(Build(h, entries[..|entries| - 1]), ComponentsOf(e), h.blob(e.bytes))
  }

  function BlobOf(h: Hash, e: Option<FileEntry>): Option<string> {
    if e.Some? then Some(h.blob(e.value.bytes)) else None
  }

  /** Its directories are the proper prefixes of the paths, and its blobs the files. */
  lemma {:induction false} BuildRepresents(h: Hash, entries: seq<FileEntry>, q: Components)
    ensures HasDir(Build(h, entries), q) <==> Inner(entries, q)
    ensures q != [] ==> BlobAt(Build(h, entries), q) == BlobOf(h, FileAt(entries, q))
  {
    hide ComponentsOf, Insert;
    if entries == [] {
      EmptyHasNothing(q);
    } else {
      var k := |entries| - 1;
      var e := entries[k];
      BuildRepresents(h, entries[..k], q);
      InsertAdds(Build(h, entries[..k]), ComponentsOf(e), h.blob(e.bytes), q);
      InnerNext(entries, q);
    }
  }

  lemma InnerNext(entries: seq<FileEntry>, q: Components)
    requires entries != []
    ensures Inner(entries, q) <==>
              Inner(entries[..|entries| - 1], q) || ProperPrefix(q, ComponentsOf(entries[|entries| - 1]))
  {
    hide ComponentsOf, ProperPrefix;
    var k := |entries| - 1;
    var init := entries[..k];
    if i :| 0 <= i < |entries| && ProperPrefix(q, ComponentsOf(entries[i])) {
      if i < k { assert init[i] == entries[i]; }
    }
    if i :| 0 <= i < |init| && ProperPrefix(q, ComponentsOf(init[i])) {
      assert init[i] == entries[i];
    }
  }

  // ----- Stored directories -----

  /** The Tree object of a directory. A subdirectory takes the place of a file of the same name. */
  function TreeOf(h: Hash, d: Dir): TreeObject
    decreases d, 0
  {
    map n | n in d.blobs.Keys + d.dirs.Keys ::
      if n in d.dirs then TreeEntry(DirOid(h, d.dirs[n])) else BlobEntry(d.blobs[n])
  }

  function DirOid(h: Hash, d: Dir): string
    decreases d, 1
  {
    h.tree(TreeOf(h, d))
  }

  /** The store holds a directory's Tree and those of everything below it. */
  ghost predicate Holds(h: Hash, trees: map<string, TreeObject>, d: Dir)
    decreases d
  {
    && DirOid(h, d) in trees && trees[DirOid(h, d)] == TreeOf(h, d)
    && forall n | n in d.dirs :: Holds(h, trees, d.dirs[n])
  }

  ghost predicate Grows<T>(a: map<string, T>, b: map<string, T>) { forall k | k in a :: k in b && b[k] == a[k] }

  lemma {:induction false} HoldsGrows(h: Hash, trees: map<string, TreeObject>, more: map<string, TreeObject>, d: Dir)
    requires Holds(h, trees, d) && Grows(trees, more)
    ensures Holds(h, more, d)
    decreases d
  {
    hide TreeOf;
    forall n | n in d.dirs ensures Holds(h, more, d.dirs[n]) {
      HoldsGrows(h, trees, more, d.dirs[n]);
    }
  }

  /** The Tree a path of subdirectories leads to. */
  function OidAt(trees: map<string, TreeObject>, root: string, q: Components): Option<string>
    decreases |q|
  {
    if q == [] then Some(root)
    else if root in trees && q[0] in trees[root] && trees[root][q[0]].TreeEntry?
    then OidAt(trees, trees[root][q[0]].oid, q[1..])
    else None
  }

  /** The file a path leads to. */
  function BytesAt(s: Store, root: string, p: Components): Option<Bytes>
    requires p != []
  {
    var parent := OidAt(s.trees, root, p[..|p| - 1]);
    var n := p[|p| - 1];
    if parent.Some? && parent.value in s.trees && n in s.trees[parent.value] && s.trees[parent.value][n].BlobEntry?
       && s.trees[parent.value][n].oid in s.blobs
    then Some(s.blobs[s.trees[parent.value][n].oid]) else None
  }

  lemma {:induction false} OidOfDir(h: Hash, trees: map<string, TreeObject>, d: Dir, q: Components)
    requires Holds(h, trees, d)
    ensures HasDir(d, q) ==>
              OidAt(trees, DirOid(h, d), q) == Some(DirOid(h, DirAt(d, q))) && Holds(h, trees, DirAt(d, q))
    ensures !HasDir(d, q) ==> OidAt(trees, DirOid(h, d), q) == None
    decreases |q|
  {
    if q != [] && q[0] in d.dirs {
      OidOfDir(h, trees, d.dirs[q[0]], q[1..]);
    }
  }

  lemma {:induction false} DirAtBlobs(d: Dir, q: Components, n: string)
    requires HasDir(d, q)
    ensures BlobAt(d, q + [n]) == if n in DirAt(d, q).blobs then Some(DirAt(d, q).blobs[n]) else None
    ensures HasDir(d, q + [n]) <==> n in DirAt(d, q).dirs
    ensures HasDir(d, q + [n]) ==> DirAt(d, q + [n]) == DirAt(d, q).dirs[n]
    decreases |q|
  {
    if q != [] {
      DirAtBlobs(d.dirs[q[0]], q[1..], n);
      assert (q + [n])[1..] == q[1..] + [n];
    } else {
      assert (q + [n])[1..] == [];
    }
  }

  // ----- A stored site -----

  /**
   * One Tree of a stored site: its names are the next components, files where a path ends and
   * subtrees where one goes on.
   */
  ghost predicate NodeOk(s: Store, root: string, entries: seq<FileEntry>, q: Components) {
    var oid := OidAt(s.trees, root, q);
    && oid.Some? && oid.value in s.trees
    && var t := s.trees[oid.value];
       forall n :: NameOk(s, root, entries, q, t, n)
  }

  ghost predicate NameOk(s: Store, root: string, entries: seq<FileEntry>, q: Components, t: TreeObject, n: string) {
    && (n in t <==> Inner(entries, q + [n]) || FileAt(entries, q + [n]).Some?)
    && (n in t && Inner(entries, q + [n]) ==>
          t[n].TreeEntry? && Oid.ParseOid(t[n].oid) == Some(Oid.Tree)
          && OidAt(s.trees, root, q + [n]) == Some(t[n].oid))
    && (n in t && !Inner(entries, q + [n]) ==>
          && t[n].BlobEntry? && Oid.ParseOid(t[n].oid) == Some(Oid.Blob)
          && t[n].oid in s.blobs && s.blobs[t[n].oid] == FileAt(entries, q + [n]).value.bytes)
  }

  ghost predicate Site(s: Store, root: string, entries: seq<FileEntry>) {
    forall q | Inner(entries, q) :: NodeOk(s, root, entries, q)
  }

  ghost predicate HoldsBlobs(h: Hash, s: Store, entries: seq<FileEntry>) {
    forall i | 0 <= i < |entries| ::
      h.blob(entries[i].bytes) in s.blobs && s.blobs[h.blob(entries[i].bytes)] == entries[i].bytes
  }

  /** Storing the built directory stores the site. */
  lemma StoredIsSite(h: Hash, s: Store, entries: seq<FileEntry>)
    requires NamesKinds(h) && Holds(h, s.trees, Build(h, entries)) && HoldsBlobs(h, s, entries)
    ensures Site(s, DirOid(h, Build(h, entries)), entries)
  {
    hide NodeOk, Holds, NamesKinds, HoldsBlobs, Build, Inner;
    forall q | Inner(entries, q) ensures NodeOk(s, DirOid(h, Build(h, entries)), entries, q) {
      StoredNode(h, s, entries, q);
    }
  }

  lemma StoredNode(h: Hash, s: Store, entries: seq<FileEntry>, q: Components)
    requires NamesKinds(h) && Holds(h, s.trees, Build(h, entries)) && HoldsBlobs(h, s, entries) && Inner(entries, q)
    ensures NodeOk(s, DirOid(h, Build(h, entries)), entries, q)
  {
    hide NameOk, NamesKinds, HoldsBlobs, Build, Inner, TreeOf, Oid.ParseOid;
    var d := Build(h, entries);
    BuildRepresents(h, entries, q);
    OidOfDir(h, s.trees, d, q);
    forall n ensures NameOk(s, DirOid(h, d), entries, q, TreeOf(h, DirAt(d, q)), n) {
      StoredName(h, s, entries, q, n);
    }
  }

  lemma StoredName(h: Hash, s: Store, entries: seq<FileEntry>, q: Components, n: string)
    requires NamesKinds(h) && Holds(h, s.trees, Build(h, entries)) && HoldsBlobs(h, s, entries)
             && HasDir(Build(h, entries), q)
    ensures NameOk(s, DirOid(h, Build(h, entries)), entries, q, TreeOf(h, DirAt(Build(h, entries), q)), n)
  {
    hide Build, Inner, Oid.ParseOid, Holds, FileAt, HasDir, DirAt, BlobAt, OidAt;
    var d := Build(h, entries);
    BuildRepresents(h, entries, q + [n]);
    DirAtBlobs(d, q, n);
    OidOfDir(h, s.trees, d, q + [n]);
    FileAtFinds(entries, q + [n]);
    if FileAt(entries, q + [n]).Some? {
      var e := FileAt(entries, q + [n]).value;
      var i :| 0 <= i < |entries| && entries[i] == e;
    }
  }

  /** Were a name both a file and a directory, storing would drop the file: the conflict check is what prevents that. */
  lemma ConflictingFileIsLost(h: Hash, s: Store, d: Dir, n: string)
    requires Holds(h, s.trees, d) && n in d.blobs && n in d.dirs
    ensures BytesAt(s, DirOid(h, d), [n]) == None
  {
    assert [n][..0] == [];
  }
}
