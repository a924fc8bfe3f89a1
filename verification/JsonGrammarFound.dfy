/** Whatever the parser takes is written in the text it consumed; so it accepts exactly the grammar. */
module JsonGrammarFound {
  import opened Text
  import opened Json
  import opened JsonParse
  import opened JsonRoundTrip
  import opened JsonAccepted
  import opened JsonSpelling
  import opened JsonGrammar
  import opened JsonGrammarReads

  /** Skipping blanks drops blanks. */
  lemma {:induction false} SkippedIsBlank(s: string) returns (k: nat)
    ensures k <= |s| && Blank(s[..k]) && SkipBlanks(s) == s[k..]
  {
    if s != [] && IsBlank(s[0]) {
      var j := SkippedIsBlank(s[1..]);
      k := j + 1;
      BlankChars(s[0]);
      assert s[..k] == [s[0]] + s[1..][..j];
      assert s[1..][j..] == s[k..];
    } else {
      k := 0;
    }
  }

  lemma BlankConcat(a: string, b: string)
    requires Blank(a) && Blank(b)
    ensures Blank(a + b)
  {
  }

  lemma PadFront(pre: string, s: string, v: Value)
    requires Blank(pre) && WritesPadded(s, v)
    ensures WritesPadded(pre + s, v)
  {
    hide Writes;
    var i, j :| 0 <= i <= j <= |s| && Blank(s[..i]) && Blank(s[j..]) && Writes(s[i..j], v);
    var t, n := pre + s, |pre|;
    BlankConcat(pre, s[..i]);
    assert t[..n + i] == pre + s[..i] && t[n + j..] == s[j..] && t[n + i..n + j] == s[i..j];
  }

  lemma PadItems(pre: string, s: string, items: seq<Value>)
    requires Blank(pre) && WritesItems(s, items)
    ensures WritesItems(pre + s, items)
  {
    hide WritesPadded;
    var t, n := pre + s, |pre|;
    if items == [] {
      BlankConcat(pre, s);
    } else if |items| == 1 {
      PadFront(pre, s, items[0]);
    } else {
      var k :| 0 <= k < |s| && s[k] == ',' && WritesPadded(s[..k], items[0]) && WritesItems(s[k + 1..], items[1..]);
      PadFront(pre, s[..k], items[0]);
      assert t[n + k] == ',' && t[..n + k] == pre + s[..k] && t[n + k + 1..] == s[k + 1..];
    }
  }

  lemma PadMembers(pre: string, s: string, ms: seq<Member<Value>>)
    requires Blank(pre) && WritesMembers(s, ms)
    ensures WritesMembers(pre + s, ms)
  {
    hide WritesMember;
    var t, n := pre + s, |pre|;
    if ms == [] {
      BlankConcat(pre, s);
    } else if |ms| == 1 {
      PadMember(pre, s, ms[0]);
    } else {
      var k :| 0 <= k < |s| && s[k] == ',' && WritesMember(s[..k], ms[0]) && WritesMembers(s[k + 1..], ms[1..]);
      PadMember(pre, s[..k], ms[0]);
      assert t[n + k] == ',' && t[..n + k] == pre + s[..k] && t[n + k + 1..] == s[k + 1..];
    }
  }

  lemma PadMember(pre: string, s: string, m: Member<Value>)
    requires Blank(pre) && WritesMember(s, m)
    ensures WritesMember(pre + s, m)
  {
    hide WritesPadded, WritesKey, Blank;
    var t, n := pre + s, |pre|;
    var k :| 0 <= k < |s| && s[k] == ':' && WritesKey(s[..k], m.key) && WritesPadded(s[k + 1..], m.value);
    PadKey(pre, s[..k], m.key);
    assert t[n + k] == ':' && t[..n + k] == pre + s[..k] && t[n + k + 1..] == s[k + 1..];
  }

  lemma PadKey(pre: string, a: string, key: string)
    requires Blank(pre) && WritesKey(a, key)
    ensures WritesKey(pre + a, key)
  {
    hide WritesString, Blank;
    var b, n := pre + a, |pre|;
    var i, j :| 0 <= i <= j <= |a| && Blank(a[..i]) && Blank(a[j..]) && WritesString(a[i..j], key);
    BlankConcat(pre, a[..i]);
    assert b[..n + i] == pre + a[..i] && b[n + j..] == a[j..] && b[n + i..n + j] == a[i..j];
  }

  // ----- Scalars -----

  lemma StringIsFound(t: string) returns (j: nat)
    requires Starts(t, '\"') && ParseStringBody(t[1..], "").GotString?
    ensures var r := ParseStringBody(t[1..], ""); j <= |t| && r.rest == t[j..] && WritesString(t[..j], r.s)
  {
    hide Spells, ParseStringBody;
    var k := ReadIsSpelled(t[1..], "");
    j := k + 2;
    var r := ParseStringBody(t[1..], "");
    assert t[1..][k + 1..] == t[j..] && r.s[0..] == r.s;
    assert t[..j][1..|t[..j]| - 1] == t[1..][..k];
  }

  lemma ScalarIsFound(t: string, depth: nat, nodes: nat, env: Env) returns (j: nat)
    requires t != [] && !IsBlank(t[0]) && t[0] != '{' && t[0] != '[' && ParseValue(t, depth, nodes, env).GotValue?
    ensures var r := ParseValue(t, depth, nodes, env); j <= |t| && r.rest == t[j..] && Writes(t[..j], r.v)
  {
    hide ParseStringBody, ParseArray, ParseObject, Spells, WritesInteger, SignedDecimal, IntOf, ValidInteger;
    NoBlanks(t);
    var r := ParseValue(t, depth, nodes, env);
    if t[0] == '\"' {
      j := StringIsFound(t);
    } else if t[0] == 't' || t[0] == 'f' || t[0] == 'n' {
      var keyword := if t[0] == 't' then "true" else if t[0] == 'f' then "false" else "null";
      j := |keyword|;
      assert t[..j] == keyword;
    } else {
      j := TokenLength(t);
      TokenIsDecimal(t[..j]);
      IntegerIsDecimal(t[..j], r.v.n);
    }
  }

  // ----- Values -----

  lemma {:induction false} ValueIsFound(s: string, depth: nat, nodes: nat, env: Env) returns (i: nat, j: nat)
    requires ParseValue(s, depth, nodes, env).GotValue?
    ensures var r := ParseValue(s, depth, nodes, env);
            i <= j <= |s| && Blank(s[..i]) && Writes(s[i..j], r.v) && r.rest == s[j..]
    decreases |s|, 1
  {
    hide ParseValue, Writes, Blank;
    i := SkippedIsBlank(s);
    var t := s[i..];
    BlanksAreSkipped(s, depth, nodes, env);
    var k := TokenIsFound(t, depth, nodes, env);
    j := i + k;
    assert s[i..j] == t[..k] && s[j..] == t[k..];
  }

  lemma {:induction false} TokenIsFound(t: string, depth: nat, nodes: nat, env: Env) returns (k: nat)
    requires t != [] && !IsBlank(t[0]) && ParseValue(t, depth, nodes, env).GotValue?
    ensures var r := ParseValue(t, depth, nodes, env); k <= |t| && Writes(t[..k], r.v) && r.rest == t[k..]
    decreases |t|, 0
  {
    hide ParseArray, ParseObject, ParseStringBody, ParseNumber, ParseKeyword, WritesItems, WritesMembers;
    NoBlanks(t);
    if t[0] == '[' {
      k := ArrayIsFound(t[1..], depth + 1, nodes + 1, env);
      BracketsClose(t, k, '[', ']');
      k := k + 2;
    } else if t[0] == '{' {
      k := ObjectIsFound(t[1..], depth + 1, nodes + 1, env);
      BracketsClose(t, k, '{', '}');
      k := k + 2;
    } else {
      k := ScalarIsFound(t, depth, nodes, env);
    }
  }

  lemma BracketsClose(t: string, k: nat, open: char, close: char)
    requires t != [] && t[0] == open && k < |t[1..]| && t[1..][k] == close
    ensures Bracketed(t[..k + 2], open, close) && Inside(t[..k + 2]) == t[1..][..k] && t[1..][k + 1..] == t[k + 2..]
  {
  }

  lemma {:induction false} ArrayIsFound(s: string, depth: nat, nodes: nat, env: Env) returns (k: nat)
    requires ParseArray(s, depth, nodes, env).GotValue?
    ensures var r := ParseArray(s, depth, nodes, env);
            k < |s| && s[k] == ']' && r.rest == s[k + 1..] && r.v.Array? && WritesItems(s[..k], r.v.items)
    decreases |s|, 4
  {
    hide ParseItems, WritesPadded, Blank;
    var n := SkippedIsBlank(s);
    var t := s[n..];
    if Starts(t, ']') {
      k := n;
      assert t[1..] == s[k + 1..];
    } else {
      var j := ItemsAreFound(t, [], depth, nodes, env);
      k := n + j;
      var r := ParseArray(s, depth, nodes, env);
      assert r.v.items[0..] == r.v.items;
      PadItems(s[..n], t[..j], r.v.items);
      Rejoins(s, n, j);
    }
  }

  lemma Rejoins(s: string, n: nat, j: nat)
    requires n + j < |s|
    ensures s[..n + j] == s[..n] + s[n..][..j] && s[n + j + 1..] == s[n..][j + 1..]
  {
  }

  lemma FoundIsPadded(s: string, i: nat, j: nat, m: nat, v: Value)
    requires i <= j <= m <= |s| && Blank(s[..i]) && Writes(s[i..j], v) && Blank(s[j..m])
    ensures WritesPadded(s[..m], v)
  {
    hide Writes;
    var t := s[..m];
    assert t[..i] == s[..i] && t[j..] == s[j..m] && t[i..j] == s[i..j];
  }

  lemma DropDrop(s: string, a: nat, b: nat)
    requires a + b <= |s|
    ensures s[a..][b..] == s[a + b..]
  {
  }

  /** One value with the blanks around it, up to where the next token starts. */
  lemma PaddedIsFound(s: string, depth: nat, nodes: nat, env: Env) returns (m: nat)
    requires ParseValue(s, depth, nodes, env).GotValue?
    ensures var p := ParseValue(s, depth, nodes, env);
            m <= |s| && SkipBlanks(p.rest) == s[m..] && WritesPadded(s[..m], p.v)
    decreases |s|, 2
  {
    hide ParseValue, Writes, WritesPadded, Blank, SkipBlanks;
    var p := ParseValue(s, depth, nodes, env);
    var i, j := ValueIsFound(s, depth, nodes, env);
    var n := SkippedIsBlank(p.rest);
    m := j + n;
    DropDrop(s, j, n);
    assert p.rest[..n] == s[j..m];
    FoundIsPadded(s, i, j, m, p.v);
  }

  /** The separator and the blanks after it. */
  lemma NextToken(s: string, m: nat) returns (b: nat)
    requires m < |s|
    ensures m + 1 + b <= |s| && Blank(s[m + 1..m + 1 + b]) && SkipBlanks(s[m + 1..]) == s[m + 1 + b..]
  {
    hide SkipBlanks;
    b := SkippedIsBlank(s[m + 1..]);
    DropDrop(s, m + 1, b);
    assert s[m + 1..][..b] == s[m + 1..m + 1 + b];
  }

  lemma {:induction false} ItemsAreFound(s: string, acc: seq<Value>, depth: nat, nodes: nat, env: Env) returns (k: nat)
    requires ParseItems(s, acc, depth, nodes, env).GotValue?
    ensures var r := ParseItems(s, acc, depth, nodes, env);
            && k < |s| && s[k] == ']' && r.rest == s[k + 1..] && r.v.Array? && acc < r.v.items
            && WritesItems(s[..k], r.v.items[|acc|..])
    decreases |s|, 3
  {
    hide ParseValue, WritesItems, WritesPadded, Blank, SkipBlanks;
    var r := ParseItems(s, acc, depth, nodes, env);
    var p := ParseValue(s, depth, nodes, env);
    var m := PaddedIsFound(s, depth, nodes, env);
    DropDrop(s, m, 1);
    if s[m] == ']' {
      k := m;
      OneItemWritten(s[..m], acc, p.v);
    } else {
      var b := NextToken(s, m);
      var u := s[m + 1 + b..];
      var q := ItemsAreFound(u, acc + [p.v], depth, p.nodes, env);
      k := m + 1 + b + q;
      DropDrop(s, m + 1 + b, q + 1);
      assert u[..q] == s[m + 1 + b..k];
      ItemsJoin(s, acc, p.v, r.v.items, m, b, q);
    }
  }

  lemma OneItemWritten(s: string, acc: seq<Value>, v: Value)
    requires WritesPadded(s, v)
    ensures acc < acc + [v] && WritesItems(s, (acc + [v])[|acc|..])
  {
    hide WritesPadded;
    assert (acc + [v])[|acc|..] == [v];
  }

  lemma ItemsJoin(s: string, acc: seq<Value>, first: Value, items: seq<Value>, m: nat, b: nat, q: nat)
    requires m < |s| && s[m] == ',' && m + 1 + b + q <= |s| && WritesPadded(s[..m], first) && Blank(s[m + 1..m + 1 + b])
    requires acc + [first] < items && WritesItems(s[m + 1 + b..m + 1 + b + q], items[|acc + [first]|..])
    ensures acc < items && WritesItems(s[..m + 1 + b + q], items[|acc|..])
  {
    hide WritesPadded, Blank;
    var got, whole := items[|acc|..], s[..m + 1 + b + q];
    assert items[|acc|] == (acc + [first])[|acc|] == first;
    assert got[0] == first && got[1..] == items[|acc| + 1..];
    PadItems(s[m + 1..m + 1 + b], s[m + 1 + b..m + 1 + b + q], got[1..]);
    assert whole[m] == ',' && whole[..m] == s[..m]
           && whole[m + 1..] == s[m + 1..m + 1 + b] + s[m + 1 + b..m + 1 + b + q];
  }

  lemma {:induction false} ObjectIsFound(s: string, depth: nat, nodes: nat, env: Env) returns (k: nat)
    requires ParseObject(s, depth, nodes, env).GotValue?
    ensures var r := ParseObject(s, depth, nodes, env);
            k < |s| && s[k] == '}' && r.rest == s[k + 1..] && r.v.Object? && WritesMembers(s[..k], r.v.entries)
    decreases |s|, 4
  {
    hide ParseMembers, WritesMember, Blank;
    var n := SkippedIsBlank(s);
    var t := s[n..];
    if Starts(t, '}') {
      k := n;
      assert t[1..] == s[k + 1..];
    } else {
      var j := MembersAreFound(t, [], depth, nodes, env);
      k := n + j;
      var r := ParseObject(s, depth, nodes, env);
      assert r.v.entries[0..] == r.v.entries;
      PadMembers(s[..n], t[..j], r.v.entries);
      assert s[..k] == s[..n] + t[..j] && s[k + 1..] == t[j + 1..];
    }
  }

  /** A key, its blanks and the colon; the rest starts at the value. */
  lemma KeyIsFound(s: string, acc: seq<Member<Value>>, env: Env) returns (k: nat, n: nat)
    requires ParseKey(s, acc, env).GotString?
    ensures var r := ParseKey(s, acc, env);
            && k < n <= |s| && s[k] == ':' && WritesKey(s[..k], r.s) && Blank(s[k + 1..n]) && r.rest == s[n..]
  {
    hide WritesString, ParseStringBody, HasKey, SkipBlanks, Blank, WritesKey;
    var j := StringIsFound(s);
    var q := ParseStringBody(s[1..], "");
    var b := SkippedIsBlank(q.rest);
    k := j + b;
    assert q.rest[b..] == s[k..] && q.rest[..b] == s[j..k] && s[k..][1..] == s[k + 1..];
    KeyThenBlank(s[..k], j, q.s) by { assert s[..k][j..] == s[j..k] && s[..k][..j] == s[..j]; }
    var c := SkippedIsBlank(s[k + 1..]);
    n := k + 1 + c;
    assert s[k + 1..][..c] == s[k + 1..n] && s[k + 1..][c..] == s[n..];
  }

  lemma KeyThenBlank(a: string, j: nat, key: string)
    requires j <= |a| && WritesString(a[..j], key) && Blank(a[j..])
    ensures WritesKey(a, key)
  {
    hide WritesString;
    assert a[..0] == [] && a[0..j] == a[..j];
  }

  /** One member from the start of the text to the separator after it. */
  lemma MemberIsFound(s: string, acc: seq<Member<Value>>, depth: nat, nodes: nat, env: Env) returns (m: nat)
    requires ParseKey(s, acc, env).GotString? && ParseValue(ParseKey(s, acc, env).rest, depth, nodes, env).GotValue?
    ensures var key := ParseKey(s, acc, env);
            var p := ParseValue(key.rest, depth, nodes, env);
            m <= |s| && SkipBlanks(p.rest) == s[m..] && WritesMember(s[..m], Member(key.s, p.v))
    decreases |s|, 2
  {
    hide ParseKey, ParseValue, WritesPadded, WritesKey, Blank, SkipBlanks;
    var key := ParseKey(s, acc, env);
    var k, n := KeyIsFound(s, acc, env);
    var p := ParseValue(key.rest, depth, nodes, env);
    var x := PaddedIsFound(key.rest, depth, nodes, env);
    m := n + x;
    DropDrop(s, n, x);
    PadFront(s[k + 1..n], s[n..][..x], p.v);
    var t := s[..m];
    assert t[..k] == s[..k] && t[k] == ':' && t[k + 1..] == s[k + 1..n] + s[n..][..x];
  }

  lemma {:induction false} MembersAreFound(s: string, acc: seq<Member<Value>>, depth: nat, nodes: nat, env: Env)
    returns (end: nat)
    requires ParseMembers(s, acc, depth, nodes, env).GotValue?
    ensures var r := ParseMembers(s, acc, depth, nodes, env);
            && end < |s| && s[end] == '}' && r.rest == s[end + 1..] && r.v.Object? && acc < r.v.entries
            && WritesMembers(s[..end], r.v.entries[|acc|..])
    decreases |s|, 3
  {
    hide ParseKey, ParseValue, WritesMembers, WritesMember, Blank, SkipBlanks;
    var r := ParseMembers(s, acc, depth, nodes, env);
    var key := ParseKey(s, acc, env);
    var p := ParseValue(key.rest, depth, nodes, env);
    var first := Member(key.s, p.v);
    var m := MemberIsFound(s, acc, depth, nodes, env);
    DropDrop(s, m, 1);
    if s[m] == '}' {
      end := m;
      OneMemberWritten(s[..m], acc, first);
    } else {
      var b := NextToken(s, m);
      var u := s[m + 1 + b..];
      var q := MembersAreFound(u, acc + [first], depth, p.nodes, env);
      end := m + 1 + b + q;
      DropDrop(s, m + 1 + b, q + 1);
      assert u[..q] == s[m + 1 + b..end];
      MembersJoin(s, acc, first, r.v.entries, m, b, q);
    }
  }

  lemma OneMemberWritten(s: string, acc: seq<Member<Value>>, m: Member<Value>)
    requires WritesMember(s, m)
    ensures acc < acc + [m] && WritesMembers(s, (acc + [m])[|acc|..])
  {
    hide WritesMember;
    assert (acc + [m])[|acc|..] == [m];
  }

  lemma MembersJoin(s: string, acc: seq<Member<Value>>, first: Member<Value>, entries: seq<Member<Value>>, m: nat,
                    b: nat, q: nat)
    requires m < |s| && s[m] == ',' && m + 1 + b + q <= |s| && WritesMember(s[..m], first) && Blank(s[m + 1..m + 1 + b])
    requires acc + [first] < entries && WritesMembers(s[m + 1 + b..m + 1 + b + q], entries[|acc + [first]|..])
    ensures acc < entries && WritesMembers(s[..m + 1 + b + q], entries[|acc|..])
  {
    hide WritesMember, Blank;
    var got, whole := entries[|acc|..], s[..m + 1 + b + q];
    assert entries[|acc|] == (acc + [first])[|acc|] == first;
    assert got[0] == first && got[1..] == entries[|acc| + 1..];
    PadMembers(s[m + 1..m + 1 + b], s[m + 1 + b..m + 1 + b + q], got[1..]);
    assert whole[m] == ',' && whole[..m] == s[..m]
           && whole[m + 1..] == s[m + 1..m + 1 + b] + s[m + 1 + b..m + 1 + b + q];
  }

  // ----- Strict parsing is the grammar -----

  /** A value of the domain that keeps every limit of the parser. */
  predicate Admissible(text: string, v: Value, env: Env) {
    && env.LimitsOk() && ByteLen(text) <= env.maxInputBytes
    && Valid(v, env) && Nodes(v) <= env.maxNodes && Nesting(v) <= env.maxNestingDepth
  }

  /**
   * Strict parsing accepts a text as a value if and only if the text writes that value, blanks around
   * tokens included, and the value is in the domain and within every limit.
   */
  lemma ParsesExactlyWhatIsWritten(text: string, v: Value, env: Env)
    ensures ParseText(text, env) == Ok(v) <==> WritesPadded(text, v) && Admissible(text, v, env)
  {
    hide ParseValue, Valid, Nodes, Nesting, Writes;
    if ParseText(text, env) == Ok(v) { AcceptedIsWritten(text, v, env); }
    if WritesPadded(text, v) && Admissible(text, v, env) { WrittenIsAccepted(text, v, env); }
  }

  lemma WrittenIsAccepted(text: string, v: Value, env: Env)
    requires WritesPadded(text, v) && Admissible(text, v, env)
    ensures ParseText(text, env) == Ok(v)
  {
    hide ParseValue, Valid, Nodes, Nesting, Writes, WritesPadded;
    assert text + "" == text;
    PaddedReads(text, v, "", 0, 0, env);
    SkipTwice(text);
    ParsesAlike(text, SkipBlanks(text), 0, 0, env);
    NotBom(text, v);
  }

  lemma NotBom(text: string, v: Value)
    requires WritesPadded(text, v)
    ensures !Starts(text, '\U{FEFF}')
  {
    var i, j :| 0 <= i <= j <= |text| && Blank(text[..i]) && Blank(text[j..]) && Writes(text[i..j], v);
    WrittenStarts(text[i..j], v);
    if i > 0 { assert text[..i][0] == text[0]; } else { WrittenNotBom(text[i..j], v); }
  }

  lemma WrittenNotBom(s: string, v: Value)
    requires Writes(s, v)
    ensures s != [] && s[0] != '\U{FEFF}'
  {
    if v.Integer? {
      IntegerIsDecimal(s, v.n);
      DecimalReadsBack(if v.n < 0 then -v.n else v.n);
    }
  }

  lemma AcceptedIsWritten(text: string, v: Value, env: Env)
    requires ParseText(text, env) == Ok(v)
    ensures WritesPadded(text, v) && Admissible(text, v, env)
  {
    hide ParseValue, Valid, Nodes, Nesting, Writes, WritesPadded, Blank, ByteLen, SkipBlanks;
    var n := SkippedIsBlank(text);
    var s := text[n..];
    ValueIsSound(s, 0, 0, env);
    WholeIsPadded(s, env);
    PadFront(text[..n], s, v);
    assert text == text[..n] + s;
  }

  lemma WholeIsPadded(s: string, env: Env)
    requires var r := ParseValue(s, 0, 0, env); r.GotValue? && SkipBlanks(r.rest) == []
    ensures WritesPadded(s, ParseValue(s, 0, 0, env).v)
  {
    hide ParseValue, Writes, WritesPadded, Blank, SkipBlanks;
    var r := ParseValue(s, 0, 0, env);
    var i, j := ValueIsFound(s, 0, 0, env);
    var b := SkippedIsBlank(r.rest);
    assert r.rest[..b] == s[j..] && s[j..|s|] == s[j..] && s[..|s|] == s;
    FoundIsPadded(s, i, j, |s|, r.v);
  }

  /** No text that writes the value, canonical or not, is shorter than the canonical one. */
  lemma CanonicalIsShortest(text: string, v: Value, env: Env)
    requires WritesPadded(text, v) && Admissible(text, v, env)
    ensures ByteLen(Canon(v)) <= ByteLen(text)
  {
    hide ParseValue, Canon, Valid, Nodes, Nesting, Writes, WritesPadded;
    WrittenIsAccepted(text, v, env);
    var s := SkipBlanks(text);
    ValueIsSound(s, 0, 0, env);
    SkipShrinks(text);
  }
}
