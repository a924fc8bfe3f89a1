/**
 * Canonical JSON as section 3.2 of RFC 8785 describes it, without a printer: no blanks, the shortest
 * lower-case spelling of every character, and members in strictly ascending order of code units.
 */
module JsonCanonical {
  import opened Text
  import opened Json
  import opened JsonOrder
  import opened JsonRoundTrip
  import opened JsonSpelling
  import opened JsonGrammar
  import opened JsonGrammarReads
  import opened JsonContent

  // ----- Strings -----

  predicate UpperHex(e: string) { exists i | 2 <= i < |e| :: 'A' <= e[i] <= 'F' }

  /** No spelling of the character is shorter, and its escapes are in lower case. */
  ghost predicate ShortestSpelling(e: string, c: char) {
    && SpellsChar(e, c) && !UpperHex(e)
    && forall f | SpellsChar(f, c) :: ByteLen(e) <= ByteLen(f)
  }

  lemma EscapedSpells(c: char)
    ensures SpellsChar(Escaped(c), c) && !UpperHex(Escaped(c))
  {
    UnitsAreUtf16(c);
    if |Escaped(c)| == 6 {
      var u := c as int;
      assert u / 0x1000 == 0 && u / 0x100 % 0x10 == 0 && u / 0x10 % 0x10 == u / 16;
    }
  }

  /** How long each way of spelling is. */
  lemma SpellingBytes(f: string, c: char)
    requires SpellsChar(f, c)
    ensures || f == [c] || (|f| == 2 && ByteLen(f) == 2) || (|f| == 6 && ByteLen(f) == 6)
            || (|f| == 12 && ByteLen(f) == 12)
    ensures f == [c] ==> ByteLen(f) == CharBytes(c)
  {
    if f == [c] {
      assert f[1..] == [];
    } else {
      forall i | 0 <= i < |f| ensures f[i] as int < 0x80 {
        AsciiSpelling(f, c, i);
      }
      ByteLenAscii(f);
    }
  }

  lemma AsciiSpelling(f: string, c: char, i: nat)
    requires SpellsChar(f, c) && f != [c] && i < |f|
    ensures f[i] as int < 0x80
  {
    if |f| == 12 && |Units(c)| == 2 {
      if i < 6 { UnitIsAscii(f[..6], Units(c)[0], i); } else { UnitIsAscii(f[6..], Units(c)[1], i - 6); }
    } else if |f| == 6 {
      UnitIsAscii(f, Units(c)[0], i);
    }
  }

  lemma UnitIsAscii(e: string, u: int, i: nat)
    requires SpellsUnit(e, u) && i < |e|
    ensures e[i] as int < 0x80
  {
    hide HexDigit;
    DigitIsAscii(e[2], u / 0x1000);
    DigitIsAscii(e[3], u / 0x100 % 0x10);
    DigitIsAscii(e[4], u / 0x10 % 0x10);
    DigitIsAscii(e[5], u % 0x10);
  }

  lemma DigitIsAscii(h: char, d: nat)
    requires d < 16 && HexDigit(h, d)
    ensures h as int < 0x80
  {
  }

  /** The printer's escape is the one shortest lower-case spelling. */
  lemma EscapedIsShortest(e: string, c: char)
    ensures ShortestSpelling(e, c) <==> e == Escaped(c)
  {
    EscapedSpells(c);
    SpellingBytes(Escaped(c), c);
    forall f | SpellsChar(f, c) ensures ByteLen(Escaped(c)) <= ByteLen(f) {
      SpellingBytes(f, c);
      NeverShorter(f, c);
    }
    if ShortestSpelling(e, c) {
      SpellingBytes(e, c);
      SameLengthSameSpelling(e, c);
    }
  }

  lemma NeverShorter(f: string, c: char)
    requires SpellsChar(f, c)
    ensures f == [c] ==> Escaped(c) == [c]
    ensures |f| == 2 ==> |Escaped(c)| == 2 || (Escaped(c) == [c] && CharBytes(c) == 1)
  {
  }

  lemma SameLengthSameSpelling(e: string, c: char)
    requires SpellsChar(e, c) && !UpperHex(e) && ByteLen(e) <= ByteLen(Escaped(c))
    ensures e == Escaped(c)
  {
    hide ByteLen, Escaped, SpellsChar, UpperHex;
    EscapedSpells(c);
    SpellingBytes(e, c);
    SpellingBytes(Escaped(c), c);
    EscapedLength(c);
    NeverShorter(e, c);
    if |e| == 6 {
      SixIsUnit(e, c);
      SixIsUnit(Escaped(c), c);
      SameUnit(e, Escaped(c), Units(c)[0]);
    } else if |e| == 2 {
      ShortIsEscaped(e, c);
    }
  }

  lemma EscapedLength(c: char)
    ensures |Escaped(c)| in {1, 2, 6} && (|Escaped(c)| == 1 ==> Escaped(c) == [c])
    ensures Escaped(c) == [c] ==> CharBytes(c) <= 4
  {
  }

  lemma SixIsUnit(e: string, c: char)
    requires SpellsChar(e, c) && |e| == 6
    ensures |Units(c)| == 1 && SpellsUnit(e, Units(c)[0])
  {
  }

  lemma ShortIsEscaped(e: string, c: char)
    requires SpellsChar(e, c) && |e| == 2 && |Escaped(c)| == 2
    ensures e == Escaped(c)
  {
    hide HexDigit;
  }

  lemma SameUnit(e: string, f: string, u: int)
    requires SpellsUnit(e, u) && SpellsUnit(f, u) && !UpperHex(e) && !UpperHex(f)
    ensures e == f
  {
    assert forall i | 2 <= i < 6 :: !('A' <= e[i] <= 'F') && !('A' <= f[i] <= 'F');
    SameDigit(e[2], f[2], u / 0x1000);
    SameDigit(e[3], f[3], u / 0x100 % 0x10);
    SameDigit(e[4], f[4], u / 0x10 % 0x10);
    SameDigit(e[5], f[5], u % 0x10);
  }

  lemma SameDigit(g: char, h: char, d: nat)
    requires d < 16 && HexDigit(g, d) && HexDigit(h, d) && !('A' <= g <= 'F') && !('A' <= h <= 'F')
    ensures g == h
  {
  }

  ghost predicate CanonicalBody(s: string, x: string)
    decreases |x|
  {
    if x == [] then s == []
    else exists k | 0 < k <= |s| :: ShortestSpelling(s[..k], x[0]) && CanonicalBody(s[k..], x[1..])
  }

  lemma {:induction false} BodyIsEscaped(s: string, x: string)
    ensures CanonicalBody(s, x) <==> s == EscapedAll(x)
    decreases |x|
  {
    hide ShortestSpelling, Escaped;
    if x != [] {
      var e := Escaped(x[0]);
      if k :| 0 < k <= |s| && ShortestSpelling(s[..k], x[0]) && CanonicalBody(s[k..], x[1..]) {
        EscapedIsShortest(s[..k], x[0]);
        BodyIsEscaped(s[k..], x[1..]);
        assert s == s[..k] + s[k..];
      }
      if s == EscapedAll(x) {
        assert s[..|e|] == e && s[|e|..] == EscapedAll(x[1..]);
        EscapedIsShortest(s[..|e|], x[0]);
        BodyIsEscaped(s[|e|..], x[1..]);
      }
    }
  }

  ghost predicate CanonicalString(s: string, x: string) { Bracketed(s, '\"', '\"') && CanonicalBody(Inside(s), x) }

  lemma StringIsQuoted(s: string, x: string)
    ensures CanonicalString(s, x) <==> s == Quoted(x)
  {
    hide CanonicalBody, EscapedAll;
    if |s| >= 2 {
      BodyIsEscaped(Inside(s), x);
      if Bracketed(s, '\"', '\"') { assert s == "\"" + Inside(s) + "\""; }
    }
    if s == Quoted(x) { assert Inside(s) == EscapedAll(x); }
  }

  // ----- Values -----

  /** The members in the order of some list of all their indices. */
  predicate Permutes(perm: seq<nat>, n: nat) {
    && |perm| == n && (forall i | 0 <= i < n :: perm[i] < n)
    && (forall i, j | 0 <= i < j < n :: perm[i] != perm[j])
  }

  /** Each key comes before the next. */
  ghost predicate Ascends(entries: seq<Member<Value>>, perm: seq<nat>)
    requires forall i | 0 <= i < |perm| :: perm[i] < |entries|
  {
    forall i | 0 <= i < |perm| - 1 :: Before(Utf16(entries[perm[i]].key), Utf16(entries[perm[i + 1]].key))
  }

  ghost predicate CanonicalText(s: string, v: Value)
    decreases v, 1
  {
    match v
    case Null => s == "null"
    case Bool(b) => s == (if b then "true" else "false")
    case Integer(n) => WritesInteger(s, n)
    case Str(x) => CanonicalString(s, x)
    case Array(items) => Bracketed(s, '[', ']') && CanonicalItems(Inside(s), items)
    case Object(entries) =>
      && Bracketed(s, '{', '}')
      && exists perm ::
           Permutes(perm, |entries|) && Ascends(entries, perm) && CanonicalMembers(Inside(s), entries, perm)
  }

  ghost predicate CanonicalItems(s: string, items: seq<Value>)
    decreases items, 0
  {
    if items == [] then s == []
    else if |items| == 1 then CanonicalText(s, items[0])
    else exists k | 0 <= k < |s| && s[k] == ',' ::
           CanonicalText(s[..k], items[0]) && CanonicalItems(s[k + 1..], items[1..])
  }

  ghost predicate CanonicalMember(s: string, m: Member<Value>)
    decreases m, 2
  {
    exists k | 0 <= k < |s| && s[k] == ':' :: CanonicalString(s[..k], m.key) && CanonicalText(s[k + 1..], m.value)
  }

  ghost predicate CanonicalMembers(s: string, entries: seq<Member<Value>>, perm: seq<nat>)
    requires forall i | 0 <= i < |perm| :: perm[i] < |entries|
    decreases entries, |perm|
  {
    if perm == [] then s == []
    else if |perm| == 1 then CanonicalMember(s, entries[perm[0]])
    else exists k | 0 <= k < |s| && s[k] == ',' ::
           CanonicalMember(s[..k], entries[perm[0]]) && CanonicalMembers(s[k + 1..], entries, perm[1..])
  }

  // ----- It is what the printer writes -----

  /** The members in that order. */
  function Arranged(entries: seq<Member<Value>>, perm: seq<nat>): (r: seq<Member<Value>>)
    requires forall i | 0 <= i < |perm| :: perm[i] < |entries|
    ensures |r| == |perm| && forall i | 0 <= i < |perm| :: r[i] == entries[perm[i]]
  {
    seq(|perm|, i requires 0 <= i < |perm| => entries[perm[i]])
  }

  lemma ArrangedIsPermutation(entries: seq<Member<Value>>, perm: seq<nat>)
    requires DistinctKeys(entries) && Permutes(perm, |entries|)
    ensures DistinctKeys(Arranged(entries, perm)) && multiset(Arranged(entries, perm)) == multiset(entries)
  {
    var order := Arranged(entries, perm);
    forall i, j | 0 <= i < j < |order| ensures order[i].key != order[j].key {
      assert perm[i] != perm[j];
      if perm[i] < perm[j] { assert entries[perm[i]].key != entries[perm[j]].key; }
    }
    SubsetIsPermutation(order, entries);
  }

  lemma {:induction false} AscendingIsSorted(ms: seq<Member<Value>>, i: nat, j: nat)
    requires forall k | 0 <= k < |ms| - 1 :: Before(Utf16(ms[k].key), Utf16(ms[k + 1].key))
    requires i < j < |ms|
    ensures KeyLe(ms[i].key, ms[j].key)
    decreases j
  {
    hide Utf16, Before, KeyLe;
    KeyOrderIsDecided(ms[j - 1].key, ms[j - 1 + 1].key);
    if i < j - 1 {
      AscendingIsSorted(ms, i, j - 1);
      KeyOrderIsTotal(ms[i].key, ms[j - 1].key, ms[j].key);
    }
  }

  /** An ascending arrangement is the sorted one. */
  lemma AscendingOrderIsSort(entries: seq<Member<Value>>, perm: seq<nat>)
    requires DistinctKeys(entries) && Permutes(perm, |entries|) && Ascends(entries, perm)
    ensures Arranged(entries, perm) == SortByKey(entries)
  {
    hide Utf16, Before, KeyLe, SortByKey;
    var order := Arranged(entries, perm);
    ArrangedIsPermutation(entries, perm);
    forall i, j | 0 <= i < j < |order| ensures KeyLe(order[i].key, order[j].key) {
      AscendingIsSorted(order, i, j);
    }
    SortIsSorted(entries);
    SortIsPermutation(entries);
    SortedIsUnique(order, SortByKey(entries));
  }

  /** The sorted arrangement ascends strictly when the keys are distinct. */
  lemma SortAscends(entries: seq<Member<Value>>) returns (perm: seq<nat>)
    requires DistinctKeys(entries)
    ensures Permutes(perm, |entries|) && Ascends(entries, perm) && Arranged(entries, perm) == SortByKey(entries)
  {
    hide Utf16, Before, KeyLe, SortByKey;
    var sorted := SortByKey(entries);
    SortIsPermutation(entries);
    SortIsSorted(entries);
    DistinctUnderPermutation(entries, sorted);
    perm := IndicesIn(sorted, entries);
    assert Arranged(entries, perm) == sorted;
    forall i | 0 <= i < |perm| - 1 ensures Before(Utf16(entries[perm[i]].key), Utf16(entries[perm[i + 1]].key)) {
      KeyOrderIsDecided(sorted[i].key, sorted[i + 1].key);
    }
  }

  /** Where each member of a rearrangement stands. */
  lemma IndicesIn(a: seq<Member<Value>>, b: seq<Member<Value>>) returns (perm: seq<nat>)
    requires DistinctKeys(a) && multiset(a) == multiset(b) && |a| == |b|
    ensures Permutes(perm, |b|) && forall i | 0 <= i < |a| :: a[i] == b[perm[i]]
  {
    perm := [];
    while |perm| < |a|
      invariant |perm| <= |a| && forall i | 0 <= i < |perm| :: perm[i] < |b| && b[perm[i]] == a[i]
    {
      var m := a[|perm|];
      assert m in multiset(b);
      var k :| 0 <= k < |b| && b[k] == m;
      perm := perm + [k];
    }
    forall i, j | 0 <= i < j < |perm| ensures perm[i] != perm[j] {
      assert a[i].key != a[j].key;
    }
  }

  lemma {:induction false} CanonIsCanonical(s: string, v: Value, env: Env)
    requires Valid(v, env)
    ensures CanonicalText(s, v) <==> s == Canon(v)
    decreases v, 1
  {
    hide WritesInteger, CanonicalString, SignedDecimal, Quoted, ItemsText, JoinMembers, Rendered, SortByKey,
         DistinctKeys, ItemsValid, MembersValid;
    match v
    case Integer(n) => IntegerIsDecimal(s, n);
    case Str(x) => StringIsQuoted(s, x);
    case Array(items) =>
      if Bracketed(s, '[', ']') {
        assert s == "[" + Inside(s) + "]";
        ItemsAreText(Inside(s), items, env);
      }
      if s == Canon(v) { assert Bracketed(s, '[', ']') && Inside(s) == ItemsText(items); }
    case Object(entries) => ObjectIsCanonical(s, entries, env);
    case _ =>
  }

  lemma {:induction false} ItemsAreText(s: string, items: seq<Value>, env: Env)
    requires ItemsValid(items, env)
    ensures CanonicalItems(s, items) <==> s == ItemsText(items)
    decreases items, 0
  {
    hide CanonicalText, Canon, Valid;
    if |items| == 1 {
      CanonIsCanonical(s, items[0], env);
    } else if items != [] {
      var head, tail := Canon(items[0]), ItemsText(items[1..]);
      if k :| 0 <= k < |s| && s[k] == ',' && CanonicalText(s[..k], items[0]) && CanonicalItems(s[k + 1..], items[1..]) {
        CanonIsCanonical(s[..k], items[0], env);
        ItemsAreText(s[k + 1..], items[1..], env);
        assert s == s[..k] + "," + s[k + 1..];
      }
      if s == head + "," + tail {
        var k := |head|;
        assert s[..k] == head && s[k] == ',' && s[k + 1..] == tail;
        CanonIsCanonical(s[..k], items[0], env);
        ItemsAreText(s[k + 1..], items[1..], env);
      }
    }
  }

  lemma {:induction false} ObjectIsCanonical(s: string, entries: seq<Member<Value>>, env: Env)
    requires DistinctKeys(entries) && MembersValid(entries, env)
    ensures CanonicalText(s, Object(entries)) <==> s == Canon(Object(entries))
    decreases entries, |entries| + 1
  {
    hide CanonicalMembers, JoinMembers, Rendered, SortByKey, DistinctKeys, MembersValid, Ascends;
    RenderedSort(entries);
    var joined := JoinMembers(Rendered(SortByKey(entries)));
    assert Canon(Object(entries)) == "{" + joined + "}";
    if CanonicalText(s, Object(entries)) {
      var perm :| Permutes(perm, |entries|) && Ascends(entries, perm) && CanonicalMembers(Inside(s), entries, perm);
      AscendingOrderIsSort(entries, perm);
      MembersAreText(Inside(s), entries, perm, env);
      assert s == "{" + Inside(s) + "}";
    }
    if s == Canon(Object(entries)) {
      assert Bracketed(s, '{', '}') && Inside(s) == joined;
      var perm := SortAscends(entries);
      MembersAreText(joined, entries, perm, env);
    }
  }

  lemma {:induction false} MembersAreText(s: string, entries: seq<Member<Value>>, perm: seq<nat>, env: Env)
    requires MembersValid(entries, env) && forall i | 0 <= i < |perm| :: perm[i] < |entries|
    ensures CanonicalMembers(s, entries, perm) <==> s == JoinMembers(Rendered(Arranged(entries, perm)))
    decreases entries, |perm|, 1
  {
    hide CanonicalMember, Canon, MembersValid, MemberText, JoinMembers, Rendered;
    if perm == [] {
      assert Arranged(entries, perm) == [];
      NothingRendered();
    } else {
      var m := entries[perm[0]];
      var rest := Arranged(entries, perm[1..]);
      assert Arranged(entries, perm) == [m] + rest;
      RenderedHead(m, rest);
      JoinUnfolds(Member(m.key, Canon(m.value)), Rendered(rest));
      if |perm| > 1 {
        SeveralAreText(s, entries, perm, env);
      } else {
        assert rest == [];
        NothingRendered();
        MemberIsText(s, entries, perm[0], env);
      }
    }
  }

  lemma {:induction false} SeveralAreText(s: string, entries: seq<Member<Value>>, perm: seq<nat>, env: Env)
    requires MembersValid(entries, env) && |perm| > 1 && forall i | 0 <= i < |perm| :: perm[i] < |entries|
    ensures var m := entries[perm[0]];
            var head, tail :=
              MemberText(Member(m.key, Canon(m.value))), JoinMembers(Rendered(Arranged(entries, perm[1..])));
            CanonicalMembers(s, entries, perm) <==> s == head + "," + tail
    decreases entries, |perm|, 0
  {
    hide CanonicalMember, Canon, MembersValid, MemberText, JoinMembers, Rendered, Arranged;
    var m := entries[perm[0]];
    var head, tail := MemberText(Member(m.key, Canon(m.value))), JoinMembers(Rendered(Arranged(entries, perm[1..])));
    if k :| 0 <= k < |s| && s[k] == ',' && CanonicalMember(s[..k], m)
            && CanonicalMembers(s[k + 1..], entries, perm[1..]) {
      MemberIsText(s[..k], entries, perm[0], env);
      MembersAreText(s[k + 1..], entries, perm[1..], env);
      assert s == s[..k] + "," + s[k + 1..];
    }
    if s == head + "," + tail {
      var k := |head|;
      assert s[..k] == head && s[k] == ',' && s[k + 1..] == tail;
      MemberIsText(s[..k], entries, perm[0], env);
      MembersAreText(s[k + 1..], entries, perm[1..], env);
    }
  }

  lemma NothingRendered()
    ensures Rendered([]) == [] && JoinMembers([]) == ""
  {
  }

  lemma RenderedHead(m: Member<Value>, ms: seq<Member<Value>>)
    ensures Rendered([m] + ms) == [Member(m.key, Canon(m.value))] + Rendered(ms)
  {
    hide Canon;
    assert ([m] + ms)[1..] == ms;
  }

  lemma {:induction false} MemberIsText(s: string, entries: seq<Member<Value>>, i: nat, env: Env)
    requires MembersValid(entries, env) && i < |entries|
    ensures CanonicalMember(s, entries[i]) <==> s == MemberText(Member(entries[i].key, Canon(entries[i].value)))
    decreases entries, 0
  {
    hide CanonicalText, Canon, CanonicalString, Quoted, MembersValid, Valid;
    var m := entries[i];
    MemberValidAt(entries, i, env);
    var key, text := Quoted(m.key), Canon(m.value);
    if k :| 0 <= k < |s| && s[k] == ':' && CanonicalString(s[..k], m.key) && CanonicalText(s[k + 1..], m.value) {
      StringIsQuoted(s[..k], m.key);
      CanonIsCanonical(s[k + 1..], m.value, env);
      assert s == s[..k] + ":" + s[k + 1..];
    }
    if s == key + ":" + text {
      var k := |key|;
      assert s[..k] == key && s[k] == ':' && s[k + 1..] == text;
      StringIsQuoted(s[..k], m.key);
      CanonIsCanonical(s[k + 1..], m.value, env);
    }
  }
}
