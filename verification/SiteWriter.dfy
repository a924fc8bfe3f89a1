/** Storing a manifest as nested objects, append-only. */
module SiteWriter {
  import opened Optional
  import opened Manifest
  import opened SiteTree
  import Oid

  class ObjectRepository {
    const h: Hash
    var blobs: map<string, Bytes>
    var trees: map<string, TreeObject>

    /** Every object is stored under its own hash. */
    ghost predicate Valid()
      reads this
    {
      && NamesKinds(h)
      && (forall k | k in blobs :: h.blob(blobs[k]) == k)
      && (forall k | k in trees :: h.tree(trees[k]) == k)
    }

    constructor (h: Hash)
      requires NamesKinds(h)
      ensures Valid() && this.h == h && View() == Store(map[], map[])
    {
      this.h, blobs, trees := h, map[], map[];
    }

    function View(): Store
      reads this
    {
      Store(blobs, trees)
    }

    /** An object that is there already must be the same one; otherwise the put is refused. */
    method PutBlob(b: Bytes) returns (oid: Option<string>)
      requires Valid()
      modifies this`blobs
      ensures Valid()
      ensures oid == if Clear(old(blobs), h.blob(b), b) then Some(h.blob(b)) else None
      ensures blobs == if oid.Some? then old(blobs)[h.blob(b) := b] else old(blobs)
    {
      var name := h.blob(b);
      if name in blobs && blobs[name] != b {
        return None;
      }
      blobs := blobs[name := b];
      return Some(name);
    }

    method PutTree(t: TreeObject) returns (oid: Option<string>)
      requires Valid()
      modifies this`trees
      ensures Valid()
      ensures oid == if Clear(old(trees), h.tree(t), t) then Some(h.tree(t)) else None
      ensures trees == if oid.Some? then old(trees)[h.tree(t) := t] else old(trees)
    {
      var name := h.tree(t);
      if name in trees && trees[name] != t {
        return None;
      }
      trees := trees[name := t];
      return Some(name);
    }

    /**
     * Stores a directory bottom up. It succeeds exactly when none of its Trees has the name of a
     * different one; earlier objects are never changed, and a failure adds only Trees of the directory.
     */
    method StoreDirectory(d: Dir) returns (oid: Option<string>)
      requires Valid()
      modifies this`trees
      ensures Valid() && Grows(old(trees), trees) && AddsFrom(h, old(trees), trees, d)
      ensures oid.Some? <==> TreesFit(h, old(trees), d)
      ensures oid.Some? ==> oid.value == DirOid(h, d) && Holds(h, trees, d)
      decreases d
    {
      hide NamesKinds, Holds, Grows, Partial, TreeOf, DirOid, BelowHeld, TreesFit, AddsFrom;
      var entries := Blobs(d);
      var names := d.dirs.Keys;
      PartialStarts(h, d, trees);
      while names != {}
        invariant Valid() && names <= d.dirs.Keys && Grows(old(trees), trees) && AddsFrom(h, old(trees), trees, d)
        invariant entries == Partial(h, d, d.dirs.Keys - names)
        invariant BelowHeld(h, trees, d, names)
        decreases |names|
      {
        var n :| n in names;
        ghost var before := trees;
        var child := StoreDirectory(d.dirs[n]);
        GrowsOn(old(trees), before, trees);
        AddsBelow(h, old(trees), before, trees, d, n);
        if child.None? {
          ClashBelow(h, old(trees), before, d, n);
          return None;
        }
        OneMoreHeld(h, before, trees, d, names, n);
        PartialNext(h, d, d.dirs.Keys - names, n);
        assert d.dirs.Keys - (names - {n}) == (d.dirs.Keys - names) + {n};
        entries := entries[n := TreeEntry(child.value)];
        names := names - {n};
      }
      PartialIsAll(h, d);
      assert d.dirs.Keys - {} == d.dirs.Keys;
      ghost var stored := trees;
      oid := PutTree(entries);
      if oid.None? {
        ClashHere(h, old(trees), stored, d);
        return None;
      }
      OneMoreTree(h, old(trees), stored, trees, d);
      AllHeld(h, stored, trees, d);
      HeldTreesFit(h, old(trees), trees, d);
    }
  }

  // ----- Names that stand for one object -----

  /** A name that is free, or that stands for this very object. */
  predicate Clear<T(==)>(m: map<string, T>, name: string, x: T) { name in m ==> m[name] == x }

  /** The Trees a directory is stored as. */
  ghost predicate TreeWithin(h: Hash, d: Dir, t: TreeObject)
    decreases d
  {
    t == TreeOf(h, d) || exists n | n in d.dirs :: TreeWithin(h, d.dirs[n], t)
  }

  /** No Tree of the directory has the name of a different Tree, stored or its own. */
  ghost predicate TreesFit(h: Hash, trees: map<string, TreeObject>, d: Dir) {
    && (forall t | TreeWithin(h, d, t) :: Clear(trees, h.tree(t), t))
    && (forall t, u | TreeWithin(h, d, t) && TreeWithin(h, d, u) && h.tree(t) == h.tree(u) :: t == u)
  }

  ghost predicate BlobsFit(h: Hash, blobs: map<string, Bytes>, entries: seq<FileEntry>) {
    && (forall i | 0 <= i < |entries| :: Clear(blobs, h.blob(entries[i].bytes), entries[i].bytes))
    && (forall i, j | 0 <= i < j < |entries| :: SameBlob(h, entries[i].bytes, entries[j].bytes))
  }

  predicate SameBlob(h: Hash, a: Bytes, b: Bytes) { h.blob(a) == h.blob(b) ==> a == b }

  /** Whatever is new among the Trees belongs to the directory. */
  ghost predicate AddsFrom(h: Hash, before: map<string, TreeObject>, after: map<string, TreeObject>, d: Dir) {
    forall k | k in after && k !in before :: TreeWithin(h, d, after[k]) && h.tree(after[k]) == k
  }

  lemma AddsBelow(h: Hash, first: map<string, TreeObject>, before: map<string, TreeObject>,
                  after: map<string, TreeObject>, d: Dir, n: string)
    requires n in d.dirs && Grows(before, after) && AddsFrom(h, first, before, d)
             && AddsFrom(h, before, after, d.dirs[n])
    ensures AddsFrom(h, first, after, d)
  {
    hide TreeOf;
  }

  /** A Tree below that clashes with what is stored by now clashes in the whole directory. */
  lemma ClashBelow(h: Hash, first: map<string, TreeObject>, before: map<string, TreeObject>, d: Dir, n: string)
    requires n in d.dirs && Grows(first, before) && AddsFrom(h, first, before, d) && !TreesFit(h, before, d.dirs[n])
    ensures !TreesFit(h, first, d)
  {
    hide TreeOf;
    if t :| TreeWithin(h, d.dirs[n], t) && !Clear(before, h.tree(t), t) {
      assert TreeWithin(h, d, t);
    } else {
      var t, u :| TreeWithin(h, d.dirs[n], t) && TreeWithin(h, d.dirs[n], u) && h.tree(t) == h.tree(u) && t != u;
      assert TreeWithin(h, d, t) && TreeWithin(h, d, u);
    }
  }

  lemma ClashHere(h: Hash, first: map<string, TreeObject>, before: map<string, TreeObject>, d: Dir)
    requires Grows(first, before) && AddsFrom(h, first, before, d) && !Clear(before, h.tree(TreeOf(h, d)), TreeOf(h, d))
    ensures !TreesFit(h, first, d)
  {
    hide TreeOf;
    assert TreeWithin(h, d, TreeOf(h, d));
  }

  lemma OneMoreTree(h: Hash, first: map<string, TreeObject>, before: map<string, TreeObject>,
                    after: map<string, TreeObject>, d: Dir)
    requires Grows(first, before) && AddsFrom(h, first, before, d) && Clear(before, h.tree(TreeOf(h, d)), TreeOf(h, d))
    requires after == before[h.tree(TreeOf(h, d)) := TreeOf(h, d)]
    ensures Grows(before, after) && Grows(first, after) && AddsFrom(h, first, after, d)
  {
    hide TreeOf;
    assert TreeWithin(h, d, TreeOf(h, d));
  }

  lemma {:induction false} HeldTree(h: Hash, trees: map<string, TreeObject>, d: Dir, t: TreeObject)
    requires Holds(h, trees, d) && TreeWithin(h, d, t)
    ensures h.tree(t) in trees && trees[h.tree(t)] == t
    decreases d
  {
    hide TreeOf;
    if t != TreeOf(h, d) {
      var n :| n in d.dirs && TreeWithin(h, d.dirs[n], t);
      HeldTree(h, trees, d.dirs[n], t);
    }
  }

  /** What could be stored beside the earlier objects had no clash. */
  lemma HeldTreesFit(h: Hash, first: map<string, TreeObject>, trees: map<string, TreeObject>, d: Dir)
    requires Grows(first, trees) && Holds(h, trees, d)
    ensures TreesFit(h, first, d)
  {
    hide Holds, TreeWithin;
    forall t | TreeWithin(h, d, t) ensures h.tree(t) in trees && trees[h.tree(t)] == t {
      HeldTree(h, trees, d, t);
    }
  }

  // ----- Storing a directory -----

  function Blobs(d: Dir): TreeObject { map n | n in d.blobs :: BlobEntry(d.blobs[n]) }

  /** The subdirectories outside `names` are stored. */
  ghost predicate BelowHeld(h: Hash, trees: map<string, TreeObject>, d: Dir, names: set<string>) {
    forall n | n in d.dirs && n !in names :: Holds(h, trees, d.dirs[n])
  }

  lemma PartialStarts(h: Hash, d: Dir, trees: map<string, TreeObject>)
    ensures Blobs(d) == Partial(h, d, d.dirs.Keys - d.dirs.Keys) && BelowHeld(h, trees, d, d.dirs.Keys)
    ensures Grows(trees, trees) && AddsFrom(h, trees, trees, d)
  {
    hide DirOid;
  }

  lemma GrowsOn<T>(a: map<string, T>, b: map<string, T>, c: map<string, T>)
    requires Grows(a, b) && Grows(b, c)
    ensures Grows(a, c)
  {
  }

  lemma OneMoreHeld(h: Hash, before: map<string, TreeObject>, after: map<string, TreeObject>, d: Dir,
                    names: set<string>, n: string)
    requires BelowHeld(h, before, d, names) && Grows(before, after) && n in d.dirs && Holds(h, after, d.dirs[n])
    ensures BelowHeld(h, after, d, names - {n})
  {
    hide Holds, Grows;
    forall k | k in d.dirs && k !in names - {n} ensures Holds(h, after, d.dirs[k]) {
      if k != n { HoldsGrows(h, before, after, d.dirs[k]); }
    }
  }

  lemma AllHeld(h: Hash, before: map<string, TreeObject>, after: map<string, TreeObject>, d: Dir)
    requires BelowHeld(h, before, d, {}) && Grows(before, after)
    requires h.tree(TreeOf(h, d)) in after && after[h.tree(TreeOf(h, d))] == TreeOf(h, d)
    ensures DirOid(h, d) == h.tree(TreeOf(h, d)) && Holds(h, after, d)
  {
    hide TreeOf;
    forall k | k in d.dirs ensures Holds(h, after, d.dirs[k]) {
      HoldsGrows(h, before, after, d.dirs[k]);
    }
  }

  /** The Tree object with only some of the subdirectories in place. */
  function Partial(h: Hash, d: Dir, done: set<string>): TreeObject
    requires done <= d.dirs.Keys
  {
    map n | n in d.blobs.Keys + done :: if n in done then TreeEntry(DirOid(h, d.dirs[n])) else BlobEntry(d.blobs[n])
  }

  lemma PartialNext(h: Hash, d: Dir, done: set<string>, n: string)
    requires done <= d.dirs.Keys && n in d.dirs
    ensures Partial(h, d, done + {n}) == Partial(h, d, done)[n := TreeEntry(DirOid(h, d.dirs[n]))]
  {
    hide DirOid;
  }

  lemma PartialIsAll(h: Hash, d: Dir)
    ensures Partial(h, d, d.dirs.Keys) == TreeOf(h, d)
  {
    hide DirOid;
  }

  // ----- Storing a manifest -----

  /** What is stored once the first `i` files are. */
  ghost predicate BlobsTo(h: Hash, first: map<string, Bytes>, blobs: map<string, Bytes>, entries: seq<FileEntry>,
                          i: nat)
    requires i <= |entries|
  {
    && Grows(first, blobs)
    && (forall k | 0 <= k < i ::
          h.blob(entries[k].bytes) in blobs && blobs[h.blob(entries[k].bytes)] == entries[k].bytes)
    && (forall n | n in blobs && n !in first :: exists k | 0 <= k < i :: h.blob(entries[k].bytes) == n)
  }

  lemma BlobNext(h: Hash, first: map<string, Bytes>, blobs: map<string, Bytes>, entries: seq<FileEntry>, i: nat)
    requires i < |entries| && BlobsTo(h, first, blobs, entries, i)
    ensures var b := entries[i].bytes;
            if Clear(blobs, h.blob(b), b) then BlobsTo(h, first, blobs[h.blob(b) := b], entries, i + 1)
            else !BlobsFit(h, first, entries)
  {
    var b := entries[i].bytes;
    if Clear(blobs, h.blob(b), b) {
      var more := blobs[h.blob(b) := b];
      forall n | n in more && n !in first ensures exists k | 0 <= k < i + 1 :: h.blob(entries[k].bytes) == n {
        if n in blobs { var k :| 0 <= k < i && h.blob(entries[k].bytes) == n; }
      }
    } else if h.blob(b) !in first {
      var k :| 0 <= k < i && h.blob(entries[k].bytes) == h.blob(b);
      assert !SameBlob(h, entries[k].bytes, entries[i].bytes);
    }
  }

  lemma StoredBlobsFit(h: Hash, first: map<string, Bytes>, blobs: map<string, Bytes>, entries: seq<FileEntry>)
    requires BlobsTo(h, first, blobs, entries, |entries|)
    ensures BlobsFit(h, first, entries) && HoldsBlobs(h, Store(blobs, map[]), entries)
  {
  }

  /**
   * Stores every file and then the directory tree; the result is the manifest's site. It succeeds
   * exactly when no two different objects would share a name, and never changes an earlier object.
   */
  method MapRegularFiles(repo: ObjectRepository, entries: seq<FileEntry>) returns (root: Option<string>)
    requires repo.Valid()
    modifies repo
    ensures repo.Valid() && Grows(old(repo.blobs), repo.blobs) && Grows(old(repo.trees), repo.trees)
    ensures root.Some? <==>
              BlobsFit(repo.h, old(repo.blobs), entries) && TreesFit(repo.h, old(repo.trees), Build(repo.h, entries))
    ensures root.Some? ==>
              root.value == DirOid(repo.h, Build(repo.h, entries)) && Site(repo.View(), root.value, entries)
  {
    hide NamesKinds, Insert, Holds, Site, TreesFit, BlobsFit;
    var d := EMPTY;
    assert entries[..0] == [];
    for i := 0 to |entries|
      invariant repo.Valid() && d == Build(repo.h, entries[..i]) && repo.trees == old(repo.trees)
      invariant BlobsTo(repo.h, old(repo.blobs), repo.blobs, entries, i)
    {
      BlobNext(repo.h, old(repo.blobs), repo.blobs, entries, i);
      var oid := repo.PutBlob(entries[i].bytes);
      if oid.None? {
        return None;
      }
      assert entries[..i + 1][..i] == entries[..i];
      d := Insert(d, ComponentsOf(entries[i]), oid.value);
    }
    assert entries[..|entries|] == entries;
    StoredBlobsFit(repo.h, old(repo.blobs), repo.blobs, entries);
    root := repo.StoreDirectory(d);
    if root.Some? { StoredIsSite(repo.h, repo.View(), entries); }
  }

  // ----- The assumption on hashes can be met -----

  const ZEROS: string := seq(64, _ => '0')

  const PLAIN_HASH := Hash(_ => "blob" + Oid.TAG + ZEROS, _ => "tree" + Oid.TAG + ZEROS)

  /** Even a hash with one name for everything names kinds, and a manifest of one file can be stored with it. */
  lemma OneFileFitsAnyNames(name: string, bytes: Bytes)
    requires |ComponentsOf(FileEntry(name, true, bytes))| == 1
    ensures var entries := [FileEntry(name, true, bytes)];
            && NamesKinds(PLAIN_HASH) && BlobsFit(PLAIN_HASH, map[], entries)
            && TreesFit(PLAIN_HASH, map[], Build(PLAIN_HASH, entries))
  {
    hide Oid.ParseOid, TreeOf;
    assert Oid.Digest(ZEROS);
    Oid.LayoutParses(Oid.Blob, ZEROS);
    Oid.LayoutParses(Oid.Tree, ZEROS);
    var entries := [FileEntry(name, true, bytes)];
    var d := Build(PLAIN_HASH, entries);
    assert Build(PLAIN_HASH, entries[..0]) == EMPTY;
    assert d.dirs == map[];
  }
}
