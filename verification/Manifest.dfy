/** Artifact manifests: which lists of files are accepted, and as what path-to-bytes map. */
module Manifest {
  import opened Optional
  import opened Split
  import opened Text
  import References

  type Bytes = seq<bv8>
  type Components = seq<string>

  datatype FileEntry = FileEntry(path: string, regular: bool, bytes: Bytes)

  datatype Limits = Limits(maxFiles: nat, maxFileBytes: nat, maxTotalBytes: nat, maxPathBytes: nat, maxDepth: nat)

  /** The Unicode tables linked against: the NFC test, and the case folding used to compare spellings. */
  datatype Rules = Rules(isNfc: string -> bool, fold: string -> string)

  predicate LimitsOk(l: Limits) {
    l.maxFiles > 0 && l.maxFileBytes > 0 && l.maxTotalBytes > 0 && l.maxPathBytes > 0 && l.maxDepth > 0
  }

  // ----- Paths -----

  predicate AsciiControl(c: char) { c as int < 0x20 || c as int == 0x7F }

  predicate BidiControl(c: char) {
    var u := c as int;
    u == 0x061C || u == 0x200E || u == 0x200F || 0x202A <= u <= 0x202E || 0x2066 <= u <= 0x2069
  }

  function UpperAscii(s: string): string {
    seq(|s|, i requires 0 <= i < |s| => if 'a' <= s[i] <= 'z' then (s[i] as int - 32) as char else s[i])
  }

  /** Device names, with ordinary or superscript digits. */
  predicate ReservedName(u: string) {
    || u == "CON" || u == "PRN" || u == "AUX" || u == "NUL"
    || (|u| == 4 && (u[..3] == "COM" || u[..3] == "LPT")
        && ('1' <= u[3] <= '9' || u[3] as int == 0xB9 || u[3] as int == 0xB2 || u[3] as int == 0xB3))
  }

  predicate PortableComponent(c: string) {
    && (c == "" || (c[|c| - 1] != '.' && c[|c| - 1] != ' '))
    && (forall i | 0 <= i < |c| :: c[i] !in "<>:\"|?*" && !BidiControl(c[i]))
    && !ReservedName(UpperAscii(Parts(c, '.')[0]))
  }

  /** One path segment as the reader checks it. */
  predicate ValidSegment(rules: Rules, c: string) {
    && References.PortableSegment(c) && '\\' !in c
    && (forall i | 0 <= i < |c| :: !AsciiControl(c[i]))
    && rules.isNfc(c) && PortableComponent(c)
  }

  predicate AsciiLetter(c: char) { 'a' <= c <= 'z' || 'A' <= c <= 'Z' }

  predicate DrivePrefix(path: string) { |path| >= 2 && AsciiLetter(path[0]) && path[1] == ':' }

  /** A whole path as the manifest checks it; the result is its components. */
  function ValidatePath(rules: Rules, l: Limits, path: string): Option<Components> {
    var cs := Parts(path, '/');
    if path == "" || path[0] == '/' || '\\' in path || DrivePrefix(path) || '\0' in path
       || (exists i | 0 <= i < |cs| :: !References.PortableSegment(cs[i]))
       || (exists i | 0 <= i < |path| :: AsciiControl(path[i])) then None
    else if ByteLen(path) > l.maxPathBytes || |cs| > l.maxDepth then None
    else if exists i | 0 <= i < |cs| :: !rules.isNfc(cs[i]) || !PortableComponent(cs[i]) then None
    else Some(cs)
  }

  lemma {:induction false} CharsOfParts(path: string, x: char)
    requires x != '/'
    ensures x in path <==> exists i | 0 <= i < |Parts(path, '/')| :: x in Parts(path, '/')[i]
  {
    if path != [] {
      CharsOfParts(path[1..], x);
      var rest, ps := Parts(path[1..], '/'), Parts(path, '/');
      if path[0] == '/' {
        assert forall i | 0 <= i < |rest| :: ps[i + 1] == rest[i];
        if i :| 0 <= i < |ps| && x in ps[i] { assert x in rest[i - 1]; }
      } else {
        assert forall i | 0 < i < |rest| :: ps[i] == rest[i];
        assert ps[0] == [path[0]] + rest[0];
        if i :| 0 <= i < |rest| && x in rest[i] { assert x in ps[i]; }
        if i :| 0 <= i < |ps| && x in ps[i] && x != path[0] { assert x in rest[i]; }
        if x == path[0] { assert x in ps[0]; }
      }
    }
  }

  lemma FirstPartOf(path: string)
    ensures path != "" && path[0] != '/' ==> Parts(path, '/')[0] != ""
    ensures path == "" || path[0] == '/' ==> Parts(path, '/')[0] == ""
  {
  }

  /** The manifest's whole-path check and the reader's segment check agree on what a path may be. */
  lemma PathIsItsSegments(rules: Rules, l: Limits, path: string)
    ensures var cs := Parts(path, '/');
            && (ValidatePath(rules, l, path).Some? <==>
                  ByteLen(path) <= l.maxPathBytes && |cs| <= l.maxDepth
                  && forall i | 0 <= i < |cs| :: ValidSegment(rules, cs[i]))
            && (ValidatePath(rules, l, path).Some? ==> ValidatePath(rules, l, path).value == cs)
  {
    hide Parts, ByteLen, References.PortableSegment, ReservedName, BidiControl, UpperAscii;
    var cs := Parts(path, '/');
    FirstPartOf(path);
    if ValidatePath(rules, l, path).Some? {
      forall i | 0 <= i < |cs| ensures ValidSegment(rules, cs[i]) {
        SegmentOfPath(rules, path, i);
      }
    }
    if forall i | 0 <= i < |cs| :: ValidSegment(rules, cs[i]) {
      PathOfSegments(rules, path);
    }
  }

  lemma SegmentOfPath(rules: Rules, path: string, i: nat)
    requires i < |Parts(path, '/')| && References.PortableSegment(Parts(path, '/')[i]) && '\\' !in path
    requires forall k | 0 <= k < |path| :: !AsciiControl(path[k])
    requires rules.isNfc(Parts(path, '/')[i]) && PortableComponent(Parts(path, '/')[i])
    ensures ValidSegment(rules, Parts(path, '/')[i])
  {
    hide Parts, PortableComponent, References.PortableSegment;
    var c := Parts(path, '/')[i];
    CharsOfParts(path, '\\');
    PartsHaveNoSeparator(path, '/');
    forall k | 0 <= k < |c| ensures !AsciiControl(c[k]) {
      CharsOfParts(path, c[k]);
      assert c[k] in Parts(path, '/')[i];
    }
  }

  lemma PathOfSegments(rules: Rules, path: string)
    requires forall i | 0 <= i < |Parts(path, '/')| :: ValidSegment(rules, Parts(path, '/')[i])
    ensures path != "" && path[0] != '/' && '\\' !in path && !DrivePrefix(path) && '\0' !in path
    ensures forall i | 0 <= i < |path| :: !AsciiControl(path[i])
  {
    hide Parts, References.PortableSegment, ReservedName, BidiControl, UpperAscii;
    FirstPartOf(path);
    NotEmptySegment(rules, Parts(path, '/')[0]);
    CharsOfParts(path, '\\');
    CharsOfParts(path, ':');
    forall i | 0 <= i < |path| ensures !AsciiControl(path[i]) {
      if path[i] != '/' { CharsOfParts(path, path[i]); }
    }
  }

  lemma NotEmptySegment(rules: Rules, c: string)
    requires ValidSegment(rules, c)
    ensures c != ""
  {
    hide PortableComponent;
  }

  /** Components joined back: the empty list is the root. */
  function JoinPath(cs: Components): string { if cs == [] then "" else Join(cs, '/') }

  predicate Segments(rules: Rules, cs: Components) { forall i | 0 <= i < |cs| :: ValidSegment(rules, cs[i]) }

  lemma SegmentsJoinBack(rules: Rules, cs: Components)
    requires Segments(rules, cs) && cs != []
    ensures Parts(JoinPath(cs), '/') == cs
  {
    hide PortableComponent, Parts, Join;
    forall i | 0 <= i < |cs| ensures '/' !in cs[i] {
      assert ValidSegment(rules, cs[i]);
    }
    PartsOfJoin(cs, '/');
  }

  lemma JoinPathInjective(rules: Rules, a: Components, b: Components)
    requires Segments(rules, a) && Segments(rules, b) && JoinPath(a) == JoinPath(b)
    ensures a == b
  {
    hide Join, Segments;
    if a != [] { SegmentsJoinBack(rules, a); }
    if b != [] { SegmentsJoinBack(rules, b); }
    if a == [] && b != [] { EmptyIsNoPath(rules, b); }
    if b == [] && a != [] { EmptyIsNoPath(rules, a); }
  }

  lemma EmptyIsNoPath(rules: Rules, cs: Components)
    requires Segments(rules, cs) && cs != []
    ensures JoinPath(cs) != ""
  {
    hide Join;
    SegmentsJoinBack(rules, cs);
    NotEmptySegment(rules, cs[0]);
    assert Parts("", '/') == [""];
  }

  // ----- Which manifests are accepted -----

  function ComponentsOf(e: FileEntry): (cs: Components)
    ensures cs != []
  {
    Parts(e.path, '/')
  }

  function TotalBytes(entries: seq<FileEntry>): nat {
    if entries == [] then 0 else TotalBytes(entries[..|entries| - 1]) + |entries[|entries| - 1].bytes|
  }

  /** Two paths spell one directory's child in ways that differ only by case folding. */
  predicate Collides(rules: Rules, a: Components, b: Components) {
    exists k | 0 <= k < |a| && k < |b| :: CollidesAt(rules, a, b, k)
  }

  predicate CollidesAt(rules: Rules, a: Components, b: Components, k: nat)
    requires k < |a| && k < |b|
  {
    a[..k] == b[..k] && rules.fold(a[k]) == rules.fold(b[k]) && a[k] != b[k]
  }

  /** A file's path is a directory of another's. */
  predicate Conflicts(a: Components, b: Components) { |a| < |b| && b[..|a|] == a }

  predicate EntryOk(rules: Rules, l: Limits, e: FileEntry) {
    e.regular && ValidatePath(rules, l, e.path).Some? && |e.bytes| <= l.maxFileBytes
  }

  predicate Compatible(rules: Rules, a: FileEntry, b: FileEntry) {
    a.path != b.path && !Collides(rules, ComponentsOf(a), ComponentsOf(b))
  }

  /** Entries that pass every check made while they are read one by one. */
  predicate Consistent(rules: Rules, l: Limits, entries: seq<FileEntry>) {
    && (forall i | 0 <= i < |entries| :: EntryOk(rules, l, entries[i]))
    && (forall i, j | 0 <= i < j < |entries| :: Compatible(rules, entries[i], entries[j]))
    && TotalBytes(entries) <= l.maxTotalBytes && |entries| <= l.maxFiles
  }

  predicate NoConflicts(entries: seq<FileEntry>) {
    forall i, j | 0 <= i < |entries| && 0 <= j < |entries| ::
      !Conflicts(ComponentsOf(entries[i]), ComponentsOf(entries[j]))
  }

  /** The whole condition, which mentions no order. */
  predicate Acceptable(rules: Rules, l: Limits, entries: seq<FileEntry>) {
    LimitsOk(l) && Consistent(rules, l, entries) && NoConflicts(entries)
  }

  function FilesOf(entries: seq<FileEntry>): map<string, Bytes> {
    if entries == [] then map[]
    else FilesOf(entries[..|entries| - 1])[entries[|entries| - 1].path := entries[|entries| - 1].bytes]
  }

  // ----- Up to case -----

  /** One path is the other, or a directory of it, once case is folded. */
  predicate FoldedPrefix(rules: Rules, a: Components, b: Components) {
    |a| <= |b| && forall k | 0 <= k < |a| :: rules.fold(a[k]) == rules.fold(b[k])
  }

  lemma {:induction false} FoldedPrefixIsPrefix(rules: Rules, a: Components, b: Components, k: nat)
    requires FoldedPrefix(rules, a, b) && !Collides(rules, a, b) && k <= |a|
    ensures a[..k] == b[..k]
  {
    if k > 0 {
      FoldedPrefixIsPrefix(rules, a, b, k - 1);
      assert !CollidesAt(rules, a, b, k - 1);
      assert a[..k] == a[..k - 1] + [a[k - 1]] && b[..k] == b[..k - 1] + [b[k - 1]];
    }
  }

  lemma CollidesIsSymmetric(rules: Rules, a: Components, b: Components)
    requires Collides(rules, a, b)
    ensures Collides(rules, b, a)
  {
    var k :| 0 <= k < |a| && k < |b| && CollidesAt(rules, a, b, k);
    assert CollidesAt(rules, b, a, k);
  }

  lemma CompatibleIsSymmetric(rules: Rules, a: FileEntry, b: FileEntry)
    requires Compatible(rules, a, b)
    ensures Compatible(rules, b, a)
  {
    hide Collides, ComponentsOf;
    if Collides(rules, ComponentsOf(b), ComponentsOf(a)) {
      CollidesIsSymmetric(rules, ComponentsOf(b), ComponentsOf(a));
    }
  }

  /** In an accepted manifest no file stands at, above or below another file's path, even after folding case. */
  lemma AcceptedPathsStayApart(rules: Rules, l: Limits, entries: seq<FileEntry>, i: nat, j: nat)
    requires Acceptable(rules, l, entries) && i < |entries| && j < |entries| && i != j
    ensures !FoldedPrefix(rules, ComponentsOf(entries[i]), ComponentsOf(entries[j]))
  {
    hide EntryOk, Collides, Conflicts, FoldedPrefix, TotalBytes;
    var a, b := ComponentsOf(entries[i]), ComponentsOf(entries[j]);
    if j < i { CompatibleIsSymmetric(rules, entries[j], entries[i]); }
    assert Compatible(rules, entries[i], entries[j]) && !Conflicts(a, b);
    if FoldedPrefix(rules, a, b) { ApartOrSame(rules, entries[i], entries[j]); }
  }

  lemma ApartOrSame(rules: Rules, x: FileEntry, y: FileEntry)
    requires FoldedPrefix(rules, ComponentsOf(x), ComponentsOf(y)) && !Collides(rules, ComponentsOf(x), ComponentsOf(y))
    ensures x.path == y.path || Conflicts(ComponentsOf(x), ComponentsOf(y))
  {
    var a, b := ComponentsOf(x), ComponentsOf(y);
    FoldedPrefixIsPrefix(rules, a, b, |a|);
    assert a[..|a|] == a;
    if |a| == |b| {
      assert b[..|b|] == b;
      JoinParts(x.path, '/');
      JoinParts(y.path, '/');
    }
  }

  // ----- Order -----

  /** The pairwise condition as a statement about elements and how often each occurs. */
  predicate Apart(rules: Rules, entries: seq<FileEntry>) {
    && (forall x | x in multiset(entries) :: multiset(entries)[x] == 1)
    && (forall x, y | x in multiset(entries) && y in multiset(entries) && x != y :: Compatible(rules, x, y))
  }

  lemma PairwiseIsApart(rules: Rules, entries: seq<FileEntry>)
    ensures (forall i, j | 0 <= i < j < |entries| :: Compatible(rules, entries[i], entries[j])) <==>
              Apart(rules, entries)
  {
    hide Collides, ComponentsOf;
    if forall i, j | 0 <= i < j < |entries| :: Compatible(rules, entries[i], entries[j]) {
      forall x | x in multiset(entries) ensures multiset(entries)[x] == 1 {
        OnceOnly(rules, entries, x);
      }
      forall x, y | x in multiset(entries) && y in multiset(entries) && x != y ensures Compatible(rules, x, y) {
        var i :| 0 <= i < |entries| && entries[i] == x;
        var j :| 0 <= j < |entries| && entries[j] == y;
        if j < i { CompatibleIsSymmetric(rules, entries[j], entries[i]); }
      }
    }
    if Apart(rules, entries) {
      forall i, j | 0 <= i < j < |entries| ensures Compatible(rules, entries[i], entries[j]) {
        if entries[i] == entries[j] { Twice(entries, i, j); }
      }
    }
  }

  lemma OnceOnly(rules: Rules, entries: seq<FileEntry>, x: FileEntry)
    requires x in entries && forall i, j | 0 <= i < j < |entries| :: Compatible(rules, entries[i], entries[j])
    ensures multiset(entries)[x] == 1
  {
    hide Collides, ComponentsOf;
    var i :| 0 <= i < |entries| && entries[i] == x;
    assert entries == entries[..i] + [x] + entries[i + 1..];
    forall k | 0 <= k < i ensures entries[..i][k] != x {
      assert Compatible(rules, entries[k], entries[i]);
    }
    var rest := entries[i + 1..];
    forall k | 0 <= k < |rest| ensures rest[k] != x {
      assert Compatible(rules, entries[i], entries[i + 1 + k]);
    }
    assert x !in entries[..i] && x !in entries[i + 1..];
    assert multiset(entries) == multiset(entries[..i]) + multiset{x} + multiset(entries[i + 1..]);
  }

  lemma Twice(entries: seq<FileEntry>, i: nat, j: nat)
    requires i < j < |entries| && entries[i] == entries[j]
    ensures multiset(entries)[entries[i]] >= 2
  {
    assert entries == entries[..i] + [entries[i]] + entries[i + 1..j] + [entries[j]] + entries[j + 1..];
    assert multiset(entries) == multiset(entries[..i]) + multiset{entries[i]} + multiset(entries[i + 1..j])
                                + multiset{entries[j]} + multiset(entries[j + 1..]);
  }

  function Without(entries: seq<FileEntry>, i: nat): seq<FileEntry>
    requires i < |entries|
  {
    entries[..i] + entries[i + 1..]
  }

  lemma {:induction false} TotalWithout(entries: seq<FileEntry>, i: nat)
    requires i < |entries|
    ensures TotalBytes(entries) == TotalBytes(Without(entries, i)) + |entries[i].bytes|
    decreases |entries|
  {
    var k := |entries| - 1;
    if i == k {
      assert Without(entries, i) == entries[..k];
    } else {
      TotalWithout(entries[..k], i);
      var w := Without(entries, i);
      assert w[..|w| - 1] == Without(entries[..k], i) && w[|w| - 1] == entries[k];
    }
  }

  lemma {:induction false} TotalIgnoresOrder(a: seq<FileEntry>, b: seq<FileEntry>)
    requires multiset(a) == multiset(b)
    ensures TotalBytes(a) == TotalBytes(b) && |a| == |b|
    decreases |a|
  {
    if a == [] {
      assert |multiset(b)| == |b|;
    } else {
      hide TotalBytes;
      var k := |a| - 1;
      assert a[k] in multiset(b);
      var i :| 0 <= i < |b| && b[i] == a[k];
      RemoveOne(a, k);
      RemoveOne(b, i);
      TotalIgnoresOrder(Without(a, k), Without(b, i));
      TotalWithout(a, k);
      TotalWithout(b, i);
    }
  }

  lemma RemoveOne(s: seq<FileEntry>, i: nat)
    requires i < |s|
    ensures multiset(Without(s, i)) == multiset(s) - multiset{s[i]} && |Without(s, i)| == |s| - 1
  {
    assert s == s[..i] + [s[i]] + s[i + 1..];
  }

  /** Whether a manifest is accepted does not depend on the order of its entries. */
  lemma AcceptanceIgnoresOrder(rules: Rules, l: Limits, a: seq<FileEntry>, b: seq<FileEntry>)
    requires multiset(a) == multiset(b) && Acceptable(rules, l, a)
    ensures Acceptable(rules, l, b)
  {
    hide EntryOk, Compatible, Conflicts, ComponentsOf, TotalBytes;
    TotalIgnoresOrder(a, b);
    PairwiseIsApart(rules, a);
    PairwiseIsApart(rules, b);
    forall i | 0 <= i < |b| ensures b[i] in a {
      assert b[i] in multiset(a);
    }
    forall i | 0 <= i < |b| ensures EntryOk(rules, l, b[i]) {
      var k :| 0 <= k < |a| && a[k] == b[i];
    }
    forall i, j | 0 <= i < |b| && 0 <= j < |b| ensures !Conflicts(ComponentsOf(b[i]), ComponentsOf(b[j])) {
      var m :| 0 <= m < |a| && a[m] == b[i];
      var n :| 0 <= n < |a| && a[n] == b[j];
    }
  }

  predicate DistinctPaths(entries: seq<FileEntry>) {
    forall i, j | 0 <= i < j < |entries| :: entries[i].path != entries[j].path
  }

  /** With distinct paths the map holds exactly the entries. */
  lemma {:induction false} FilesHold(entries: seq<FileEntry>)
    requires DistinctPaths(entries)
    ensures forall i | 0 <= i < |entries| ::
              entries[i].path in FilesOf(entries) && FilesOf(entries)[entries[i].path] == entries[i].bytes
    ensures forall p | p in FilesOf(entries) :: exists i | 0 <= i < |entries| :: entries[i].path == p
    ensures |FilesOf(entries)| == |entries|
  {
    if entries != [] {
      var k := |entries| - 1;
      var init := entries[..k];
      FilesHold(init);
      assert forall i | 0 <= i < k :: init[i] == entries[i];
      assert entries[k].path !in FilesOf(init);
    }
  }

  /** Nor does the accepted map. */
  lemma FilesIgnoreOrder(a: seq<FileEntry>, b: seq<FileEntry>)
    requires multiset(a) == multiset(b) && DistinctPaths(a) && DistinctPaths(b)
    ensures FilesOf(a) == FilesOf(b)
  {
    hide FilesOf;
    FilesHold(a);
    FilesHold(b);
    forall p | p in FilesOf(a) ensures p in FilesOf(b) && FilesOf(a)[p] == FilesOf(b)[p] {
      var i :| 0 <= i < |a| && a[i].path == p;
      assert a[i] in multiset(b);
      var j :| 0 <= j < |b| && b[j] == a[i];
    }
    forall p | p in FilesOf(b) ensures p in FilesOf(a) {
      var i :| 0 <= i < |b| && b[i].path == p;
      assert b[i] in multiset(a);
      var j :| 0 <= j < |a| && a[j] == b[i];
    }
  }
}
