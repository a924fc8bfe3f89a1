/** Building a manifest entry by entry. */
module ManifestBuilder {
  import opened Optional
  import opened Split
  import opened Manifest

  /** Where one child of a directory is remembered: its parent's path and its folded name. */
  type Key = (string, string)

  function KeyAt(rules: Rules, cs: Components, k: nat): Key
    requires k < |cs|
  {
    (JoinPath(cs[..k]), rules.fold(cs[k]))
  }

  /** The remembered spellings after the first `k` components of a path. */
  function Extended(rules: Rules, spellings: map<Key, string>, cs: Components, k: nat): map<Key, string>
    requires k <= |cs|
  {
    if k == 0 then spellings else Extended(rules, spellings, cs, k - 1)[KeyAt(rules, cs, k - 1) := cs[k - 1]]
  }

  predicate FitsAt(rules: Rules, spellings: map<Key, string>, cs: Components, k: nat)
    requires k < |cs|
  {
    KeyAt(rules, cs, k) in spellings ==> spellings[KeyAt(rules, cs, k)] == cs[k]
  }

  predicate Fits(rules: Rules, spellings: map<Key, string>, cs: Components) {
    forall k | 0 <= k < |cs| :: FitsAt(rules, spellings, cs, k)
  }

  lemma KeysDiffer(rules: Rules, cs: Components, i: nat, j: nat)
    requires Segments(rules, cs) && i < |cs| && j < |cs| && i != j
    ensures KeyAt(rules, cs, i) != KeyAt(rules, cs, j)
  {
    hide ValidSegment, JoinPath;
    if JoinPath(cs[..i]) == JoinPath(cs[..j]) { JoinPathInjective(rules, cs[..i], cs[..j]); }
  }

  lemma {:induction false} ExtendedElsewhere(rules: Rules, spellings: map<Key, string>, cs: Components, k: nat, at: nat)
    requires Segments(rules, cs) && k <= at < |cs|
    ensures var key := KeyAt(rules, cs, at);
            && (key in Extended(rules, spellings, cs, k) <==> key in spellings)
            && (key in spellings ==> Extended(rules, spellings, cs, k)[key] == spellings[key])
  {
    hide Segments, KeyAt;
    if k > 0 {
      ExtendedElsewhere(rules, spellings, cs, k - 1, at);
      KeysDiffer(rules, cs, k - 1, at);
    }
  }

  /** Remembers each component under its parent, unless another spelling is already there. */
  method RegisterSpellings(rules: Rules, spellings: map<Key, string>, cs: Components)
    returns (r: Option<map<Key, string>>)
    requires Segments(rules, cs)
    ensures r == if Fits(rules, spellings, cs) then Some(Extended(rules, spellings, cs, |cs|)) else None
  {
    hide Segments, KeyAt;
    var current := spellings;
    for index := 0 to |cs|
      invariant current == Extended(rules, spellings, cs, index)
      invariant forall k | 0 <= k < index :: FitsAt(rules, spellings, cs, k)
    {
      ExtendedElsewhere(rules, spellings, cs, index, index);
      var key := KeyAt(rules, cs, index);
      if key in current && current[key] != cs[index] {
        assert !FitsAt(rules, spellings, cs, index);
        return None;
      }
      current := current[key := cs[index]];
    }
    return Some(current);
  }

  // ----- What is remembered -----

  ghost predicate From(rules: Rules, entries: seq<FileEntry>, key: Key, spelling: string) {
    exists m, k | 0 <= m < |entries| && 0 <= k < |ComponentsOf(entries[m])| ::
      key == KeyAt(rules, ComponentsOf(entries[m]), k) && spelling == ComponentsOf(entries[m])[k]
  }

  predicate Recorded(rules: Rules, spellings: map<Key, string>, cs: Components) {
    forall k | 0 <= k < |cs| :: KeyAt(rules, cs, k) in spellings && spellings[KeyAt(rules, cs, k)] == cs[k]
  }

  /** Exactly the spellings of the entries read so far. */
  ghost predicate Remembers(rules: Rules, entries: seq<FileEntry>, spellings: map<Key, string>) {
    && (forall m | 0 <= m < |entries| :: Recorded(rules, spellings, ComponentsOf(entries[m])))
    && (forall key | key in spellings :: From(rules, entries, key, spellings[key]))
  }

  lemma {:induction false} ExtendedRecords(rules: Rules, spellings: map<Key, string>, cs: Components, k: nat)
    requires Segments(rules, cs) && Fits(rules, spellings, cs) && k <= |cs|
    ensures var ext := Extended(rules, spellings, cs, k);
            && (forall i | 0 <= i < k :: KeyAt(rules, cs, i) in ext && ext[KeyAt(rules, cs, i)] == cs[i])
            && (forall key | key in spellings :: key in ext && ext[key] == spellings[key])
            && (forall key | key in ext :: key in spellings || exists i | 0 <= i < k :: key == KeyAt(rules, cs, i))
  {
    hide KeyAt, Segments;
    if k > 0 {
      ExtendedRecords(rules, spellings, cs, k - 1);
      assert FitsAt(rules, spellings, cs, k - 1);
      forall i | 0 <= i < k - 1 ensures KeyAt(rules, cs, i) != KeyAt(rules, cs, k - 1) {
        KeysDiffer(rules, cs, i, k - 1);
      }
    }
  }

  lemma RemembersNext(rules: Rules, entries: seq<FileEntry>, e: FileEntry, spellings: map<Key, string>)
    requires Remembers(rules, entries, spellings) && Segments(rules, ComponentsOf(e))
             && Fits(rules, spellings, ComponentsOf(e))
    ensures Remembers(rules, entries + [e], Extended(rules, spellings, ComponentsOf(e), |ComponentsOf(e)|))
  {
    hide KeyAt, Segments, ComponentsOf, Extended, Fits;
    var cs, all := ComponentsOf(e), entries + [e];
    var ext := Extended(rules, spellings, cs, |cs|);
    ExtendedRecords(rules, spellings, cs, |cs|);
    forall m | 0 <= m < |all| ensures Recorded(rules, ext, ComponentsOf(all[m])) {
      if m < |entries| { assert Recorded(rules, spellings, ComponentsOf(entries[m])); }
    }
    forall key | key in ext ensures From(rules, all, key, ext[key]) {
      if key in spellings {
        var m, k :| 0 <= m < |entries| && 0 <= k < |ComponentsOf(entries[m])|
                    && key == KeyAt(rules, ComponentsOf(entries[m]), k)
                       && spellings[key] == ComponentsOf(entries[m])[k];
        assert all[m] == entries[m];
      } else {
        assert all[|entries|] == e;
      }
    }
  }

  predicate AllSegments(rules: Rules, entries: seq<FileEntry>) {
    forall m | 0 <= m < |entries| :: Segments(rules, ComponentsOf(entries[m]))
  }

  /** The remembered spellings refuse exactly the paths that collide with one already read. */
  lemma FitsExactlyWhenApart(rules: Rules, entries: seq<FileEntry>, spellings: map<Key, string>, cs: Components)
    requires Remembers(rules, entries, spellings) && AllSegments(rules, entries) && Segments(rules, cs)
    ensures Fits(rules, spellings, cs) <==>
              forall m | 0 <= m < |entries| :: !Collides(rules, ComponentsOf(entries[m]), cs)
  {
    hide Segments, ComponentsOf, JoinPath;
    if Fits(rules, spellings, cs) {
      forall m | 0 <= m < |entries| ensures !Collides(rules, ComponentsOf(entries[m]), cs) {
        FitNeverCollides(rules, spellings, ComponentsOf(entries[m]), cs);
      }
    } else {
      var k :| 0 <= k < |cs| && !FitsAt(rules, spellings, cs, k);
      var key := KeyAt(rules, cs, k);
      assert From(rules, entries, key, spellings[key]);
      var m, j :| 0 <= m < |entries| && 0 <= j < |ComponentsOf(entries[m])|
                  && key == KeyAt(rules, ComponentsOf(entries[m]), j) && spellings[key] == ComponentsOf(entries[m])[j];
      SameKeyCollides(rules, ComponentsOf(entries[m]), cs, j, k);
    }
  }

  lemma FitNeverCollides(rules: Rules, spellings: map<Key, string>, seen: Components, cs: Components)
    requires Recorded(rules, spellings, seen) && Fits(rules, spellings, cs)
    ensures !Collides(rules, seen, cs)
  {
    hide JoinPath;
    forall k | 0 <= k < |seen| && k < |cs| ensures !CollidesAt(rules, seen, cs, k) {
      assert FitsAt(rules, spellings, cs, k);
    }
  }

  lemma SameKeyCollides(rules: Rules, a: Components, b: Components, j: nat, k: nat)
    requires Segments(rules, a) && Segments(rules, b) && j < |a| && k < |b|
    requires KeyAt(rules, a, j) == KeyAt(rules, b, k) && a[j] != b[k]
    ensures Collides(rules, a, b)
  {
    hide ValidSegment, JoinPath;
    JoinPathInjective(rules, a[..j], b[..k]);
    assert |a[..j]| == |b[..k]|;
    assert CollidesAt(rules, a, b, k);
  }

  // ----- The loop over entries -----

  lemma PathSegments(rules: Rules, l: Limits, e: FileEntry)
    requires EntryOk(rules, l, e)
    ensures Segments(rules, ComponentsOf(e)) && ValidatePath(rules, l, e.path).value == ComponentsOf(e)
  {
    hide ValidatePath, ValidSegment;
    PathIsItsSegments(rules, l, e.path);
  }

  lemma ConsistentNext(rules: Rules, l: Limits, entries: seq<FileEntry>, e: FileEntry)
    ensures Consistent(rules, l, entries + [e]) <==>
            && Consistent(rules, l, entries) && EntryOk(rules, l, e)
            && (forall m | 0 <= m < |entries| :: Compatible(rules, entries[m], e))
            && TotalBytes(entries) + |e.bytes| <= l.maxTotalBytes && |entries| < l.maxFiles
  {
    hide EntryOk, Compatible;
    var all := entries + [e];
    assert all[..|all| - 1] == entries;
    assert forall m | 0 <= m < |entries| :: all[m] == entries[m];
    assert all[|entries|] == e;
    if Consistent(rules, l, all) {
      forall i, j | 0 <= i < j < |entries| ensures Compatible(rules, entries[i], entries[j]) {
        assert Compatible(rules, all[i], all[j]);
      }
      forall m | 0 <= m < |entries| ensures Compatible(rules, entries[m], e) && EntryOk(rules, l, entries[m]) {
        assert Compatible(rules, all[m], all[|entries|]) && EntryOk(rules, l, all[m]);
      }
      assert EntryOk(rules, l, all[|entries|]);
    }
  }

  /** A longer list of entries can only fail more. */
  lemma {:induction false} PrefixIsConsistent(rules: Rules, l: Limits, entries: seq<FileEntry>, k: nat)
    requires Consistent(rules, l, entries) && k <= |entries|
    ensures Consistent(rules, l, entries[..k])
    decreases |entries| - k
  {
    hide Consistent;
    if k == |entries| {
      assert entries[..k] == entries;
    } else {
      PrefixIsConsistent(rules, l, entries, k + 1);
      assert entries[..k + 1] == entries[..k] + [entries[k]];
      ConsistentNext(rules, l, entries[..k], entries[k]);
    }
  }

  /** The loop's variables agree with the entries read so far. */
  ghost predicate Building(rules: Rules, l: Limits, read: seq<FileEntry>, files: map<string, Bytes>, total: nat,
                           spellings: map<Key, string>) {
    Consistent(rules, l, read) && files == FilesOf(read) && total == TotalBytes(read)
    && Remembers(rules, read, spellings)
  }

  lemma ConsistentParts(rules: Rules, l: Limits, read: seq<FileEntry>)
    requires Consistent(rules, l, read)
    ensures DistinctPaths(read) && AllSegments(rules, read)
  {
    hide EntryOk, Collides, ComponentsOf, TotalBytes, Segments;
    forall m | 0 <= m < |read| ensures Segments(rules, ComponentsOf(read[m])) {
      PathSegments(rules, l, read[m]);
    }
    forall i, j | 0 <= i < j < |read| ensures read[i].path != read[j].path {
      assert Compatible(rules, read[i], read[j]);
    }
  }

  lemma CompatibleWithAll(rules: Rules, read: seq<FileEntry>, e: FileEntry)
    requires DistinctPaths(read)
    ensures (forall m | 0 <= m < |read| :: Compatible(rules, read[m], e)) <==>
            e.path !in FilesOf(read)
            && forall m | 0 <= m < |read| :: !Collides(rules, ComponentsOf(read[m]), ComponentsOf(e))
  {
    hide FilesOf, Collides, ComponentsOf;
    FilesHold(read);
    if forall m | 0 <= m < |read| :: Compatible(rules, read[m], e) {
      forall m | 0 <= m < |read|
        ensures read[m].path != e.path && !Collides(rules, ComponentsOf(read[m]), ComponentsOf(e)) {
        assert Compatible(rules, read[m], e);
      }
    }
  }

  method AddEntry(rules: Rules, l: Limits, e: FileEntry, files: map<string, Bytes>, total: nat,
                  spellings: map<Key, string>, ghost read: seq<FileEntry>)
    returns (ok: bool, files': map<string, Bytes>, total': nat, spellings': map<Key, string>)
    requires Building(rules, l, read, files, total, spellings)
    ensures ok <==> Consistent(rules, l, read + [e])
    ensures ok ==> Building(rules, l, read + [e], files', total', spellings')
  {
    hide ValidatePath, Consistent, Remembers, Compatible, Fits, Extended, AllSegments, Segments, DistinctPaths,
         FilesOf, TotalBytes, ComponentsOf, Collides;
    files', total', spellings' := files, total, spellings;
    ConsistentNext(rules, l, read, e);
    ConsistentParts(rules, l, read);
    CompatibleWithAll(rules, read, e);
    if !e.regular {
      return false, files', total', spellings';
    }
    var components := ValidatePath(rules, l, e.path);
    if components.None? {
      return false, files', total', spellings';
    }
    if e.path in files {
      return false, files', total', spellings';
    }
    if |e.bytes| > l.maxFileBytes {
      return false, files', total', spellings';
    }
    total' := total + |e.bytes|;
    if total' > l.maxTotalBytes {
      return false, files', total', spellings';
    }
    PathSegments(rules, l, e);
    FitsExactlyWhenApart(rules, read, spellings, components.value);
    var registered := RegisterSpellings(rules, spellings, components.value);
    if registered.None? {
      return false, files', total', spellings';
    }
    RemembersNext(rules, read, e, spellings);
    spellings' := registered.value;
    files' := files[e.path := e.bytes];
    FilesNext(rules, read, e);
    if |files'| > l.maxFiles {
      return false, files', total', spellings';
    }
    return true, files', total', spellings';
  }

  lemma FilesNext(rules: Rules, read: seq<FileEntry>, e: FileEntry)
    requires DistinctPaths(read) && e.path !in FilesOf(read)
    ensures FilesOf(read + [e]) == FilesOf(read)[e.path := e.bytes] && |FilesOf(read + [e])| == |read| + 1
    ensures TotalBytes(read + [e]) == TotalBytes(read) + |e.bytes|
  {
    assert (read + [e])[..|read|] == read;
    FilesHold(read);
  }

  /** Looks for a file at any directory of a path. */
  method HasFilePrefix(rules: Rules, l: Limits, entries: seq<FileEntry>, files: map<string, Bytes>,
                       i: nat)
    returns (found: bool)
    requires Consistent(rules, l, entries) && files == FilesOf(entries) && i < |entries|
    ensures found <==> exists j | 0 <= j < |entries| :: Conflicts(ComponentsOf(entries[j]), ComponentsOf(entries[i]))
  {
    hide Consistent, FilesOf, JoinPath, Conflicts, AllSegments;
    ConsistentParts(rules, l, entries);
    var components := Parts(entries[i].path, '/');
    for length := 1 to |components|
      invariant forall k | 1 <= k < length :: JoinPath(components[..k]) !in files
    {
      if JoinPath(components[..length]) in files {
        FoundConflict(rules, entries, i, length);
        return true;
      }
    }
    forall j | 0 <= j < |entries| ensures !Conflicts(ComponentsOf(entries[j]), components) {
      NoFoundConflict(rules, entries, i, j);
    }
    return false;
  }

  lemma FoundConflict(rules: Rules, entries: seq<FileEntry>, i: nat, length: nat)
    requires DistinctPaths(entries) && AllSegments(rules, entries) && i < |entries|
             && 1 <= length < |ComponentsOf(entries[i])|
    requires JoinPath(ComponentsOf(entries[i])[..length]) in FilesOf(entries)
    ensures exists j | 0 <= j < |entries| :: Conflicts(ComponentsOf(entries[j]), ComponentsOf(entries[i]))
  {
    hide FilesOf, Segments;
    var cs := ComponentsOf(entries[i]);
    FilesHold(entries);
    var j :| 0 <= j < |entries| && entries[j].path == JoinPath(cs[..length]);
    PrefixSegments(rules, cs, length);
    SegmentsJoinBack(rules, cs[..length]);
    assert ComponentsOf(entries[j]) == cs[..length];
    assert Conflicts(ComponentsOf(entries[j]), cs);
  }

  lemma PrefixSegments(rules: Rules, cs: Components, k: nat)
    requires Segments(rules, cs) && k <= |cs|
    ensures Segments(rules, cs[..k])
  {
    hide ValidSegment;
  }

  lemma NoFoundConflict(rules: Rules, entries: seq<FileEntry>, i: nat, j: nat)
    requires DistinctPaths(entries) && i < |entries| && j < |entries|
    requires forall k | 1 <= k < |ComponentsOf(entries[i])| ::
               JoinPath(ComponentsOf(entries[i])[..k]) !in FilesOf(entries)
    ensures !Conflicts(ComponentsOf(entries[j]), ComponentsOf(entries[i]))
  {
    hide FilesOf;
    var a, b := ComponentsOf(entries[j]), ComponentsOf(entries[i]);
    FilesHold(entries);
    JoinParts(entries[j].path, '/');
    assert JoinPath(a) in FilesOf(entries);
    assert |a| < |b| ==> JoinPath(b[..|a|]) !in FilesOf(entries);
  }

  /** Accepts exactly the manifests that satisfy the order-free condition, as exactly the map they spell. */
  method FromEntries(rules: Rules, l: Limits, entries: seq<FileEntry>) returns (r: Option<map<string, Bytes>>)
    ensures r == if Acceptable(rules, l, entries) then Some(FilesOf(entries)) else None
  {
    hide Consistent, Remembers, FilesOf, TotalBytes, Conflicts;
    if !LimitsOk(l) {
      return None;
    }
    var files, total, spellings := map[], 0, map[];
    BuildingStarts(rules, l);
    assert entries[..0] == [];
    for i := 0 to |entries|
      invariant Building(rules, l, entries[..i], files, total, spellings)
    {
      var ok;
      assert entries[..i + 1] == entries[..i] + [entries[i]];
      ok, files, total, spellings := AddEntry(rules, l, entries[i], files, total, spellings, entries[..i]);
      if !ok {
        RejectedEarly(rules, l, entries, i + 1);
        return None;
      }
    }
    assert entries[..|entries|] == entries;
    for i := 0 to |entries|
      invariant forall m, j | 0 <= m < i && 0 <= j < |entries| ::
                  !Conflicts(ComponentsOf(entries[j]), ComponentsOf(entries[m]))
    {
      var found := HasFilePrefix(rules, l, entries, files, i);
      if found {
        return None;
      }
    }
    return Some(files);
  }

  lemma RejectedEarly(rules: Rules, l: Limits, entries: seq<FileEntry>, k: nat)
    requires k <= |entries| && !Consistent(rules, l, entries[..k])
    ensures !Consistent(rules, l, entries)
  {
    hide Consistent;
    if Consistent(rules, l, entries) { PrefixIsConsistent(rules, l, entries, k); }
  }

  lemma BuildingStarts(rules: Rules, l: Limits)
    ensures Building(rules, l, [], map[], 0, map[])
  {
  }
}
