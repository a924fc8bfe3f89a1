/** Every text that writes a value within the limits is read as that value. */
module JsonGrammarReads {
  import opened Json
  import opened JsonParse
  import opened JsonRoundTrip
  import opened JsonAccepted
  import opened JsonSpelling
  import opened JsonGrammar

  // ----- Integers -----

  lemma {:induction false} PlaceSnoc(s: string, d: char)
    requires Digits(s) && '0' <= d <= '9'
    ensures Digits(s + [d]) && PlaceValue(s + [d]) == PlaceValue(s) * 10 + (d as int - '0' as int)
  {
    if s == [] {
      assert s + [d] == [d] && [d][1..] == [];
    } else {
      PlaceSnoc(s[1..], d);
      assert (s + [d])[1..] == s[1..] + [d];
      assert Pow10(|s|) == 10 * Pow10(|s| - 1);
      assert (s[0] as int - '0' as int) * Pow10(|s|) == 10 * ((s[0] as int - '0' as int) * Pow10(|s| - 1));
    }
  }

  lemma {:induction false} PlaceIsNat(s: string)
    requires Digits(s)
    ensures AllDigits(s) && PlaceValue(s) == NatOf(s)
  {
    if s != [] {
      var init, d := s[..|s| - 1], s[|s| - 1];
      PlaceIsNat(init);
      PlaceSnoc(init, d);
      assert s == init + [d];
    }
  }

  lemma NumeralIsDecimal(s: string, n: nat)
    ensures Numeral(s, n) <==> s == Decimal(n)
  {
    hide PlaceValue, NatOf, Decimal;
    DecimalReadsBack(n);
    PlaceIsNat(Decimal(n));
    if Numeral(s, n) {
      PlaceIsNat(s);
      DigitsAreDecimal(s);
    }
    ShortDecimal(n);
  }

  lemma ShortDecimal(n: nat)
    ensures |Decimal(n)| == 1 || n > 0
  {
  }

  /** An integer is written in one way only. */
  lemma IntegerIsDecimal(s: string, n: int)
    ensures WritesInteger(s, n) <==> s == SignedDecimal(n)
  {
    hide Numeral, Decimal;
    if n < 0 {
      if s != [] {
        NumeralIsDecimal(s[1..], -n);
        assert s == [s[0]] + s[1..];
      }
      assert ("-" + Decimal(-n))[1..] == Decimal(-n);
    } else {
      NumeralIsDecimal(s, n);
    }
  }

  // ----- Blanks -----

  lemma BlankChars(c: char)
    ensures c in " \t\r\n" <==> IsBlank(c)
  {
  }

  lemma {:induction false} BlanksSkip(pre: string, s: string)
    requires Blank(pre)
    ensures SkipBlanks(pre + s) == SkipBlanks(s)
  {
    if pre == [] {
      assert pre + s == s;
    } else {
      BlankChars(pre[0]);
      assert (pre + s)[1..] == pre[1..] + s;
      BlanksSkip(pre[1..], s);
    }
  }

  lemma NoBlanks(s: string)
    requires s != [] && !IsBlank(s[0])
    ensures SkipBlanks(s) == s
  {
  }

  lemma ParsesAlike(s: string, t: string, depth: nat, nodes: nat, env: Env)
    requires SkipBlanks(s) == SkipBlanks(t)
    ensures ParseValue(s, depth, nodes, env) == ParseValue(t, depth, nodes, env)
  {
    hide ParseValue;
    BlanksAreSkipped(s, depth, nodes, env);
    BlanksAreSkipped(t, depth, nodes, env);
  }

  lemma ItemsParseAlike(s: string, t: string, acc: seq<Value>, depth: nat, nodes: nat, env: Env)
    requires SkipBlanks(s) == SkipBlanks(t)
    ensures ParseItems(s, acc, depth, nodes, env) == ParseItems(t, acc, depth, nodes, env)
  {
    hide ParseValue;
    ParsesAlike(s, t, depth, nodes, env);
  }

  // ----- How a written value begins -----

  lemma WrittenStarts(s: string, v: Value)
    requires Writes(s, v)
    ensures s != [] && !IsBlank(s[0]) && s[0] != ']' && s[0] != '}'
  {
    if v.Integer? {
      IntegerIsDecimal(s, v.n);
      DecimalReadsBack(if v.n < 0 then -v.n else v.n);
    }
  }

  // ----- Scalars -----

  lemma ScalarReads(w: string, v: Value, rest: string, depth: nat, nodes: nat, env: Env)
    requires Writes(w, v) && !v.Array? && !v.Object? && Room(v, depth, nodes, env) && Delimits(rest)
    ensures ParseValue(w + rest, depth, nodes, env) == GotValue(v, rest, nodes + 1)
  {
    hide ParseStringBody, ParseNumber, ParseValue, WritesInteger, Spells;
    WrittenStarts(w, v);
    ScalarDispatch(w + rest, depth, nodes, env);
    match v
    case Null => KeywordReadsBack(w, v, rest, nodes + 1);
    case Bool(b) => KeywordReadsBack(w, v, rest, nodes + 1);
    case Integer(n) =>
      IntegerIsDecimal(w, n);
      IntegerReadsBack(n, rest, nodes + 1);
    case Str(x) => StringLiteralReads(w, x, rest);
  }

  lemma StringLiteralReads(w: string, x: string, rest: string)
    requires WritesString(w, x)
    ensures (w + rest)[0] == '\"' && ParseStringBody((w + rest)[1..], "") == GotString(x, rest)
  {
    hide Spells, ParseStringBody;
    var s := w[1..|w| - 1];
    assert (w + rest)[1..] == s + "\"" + rest;
    SpellingReads(s, x, rest, "");
    assert "" + x == x;
  }

  // ----- Values -----

  lemma {:induction false} ValueReads(w: string, v: Value, rest: string, depth: nat, nodes: nat, env: Env)
    requires Writes(w, v) && Room(v, depth, nodes, env) && Delimits(rest)
    ensures ParseValue(w + rest, depth, nodes, env) == GotValue(v, rest, nodes + Nodes(v))
    decreases Nodes(v), 0
  {
    hide ParseValue, ParseArray, ParseObject, WritesItems, WritesMembers;
    match v
    case Array(items) =>
      var inner := Inside(w);
      assert w + rest == "[" + (inner + "]" + rest);
      ContainerOpens(inner + "]" + rest, depth, nodes, env);
      ArrayReads(inner, items, rest, depth + 1, nodes + 1, env);
    case Object(entries) =>
      var inner := Inside(w);
      assert w + rest == "{" + (inner + "}" + rest);
      ContainerOpens(inner + "}" + rest, depth, nodes, env);
      assert [] + entries == entries;
      ObjectReads(inner, entries, rest, depth + 1, nodes + 1, env);
    case _ => ScalarReads(w, v, rest, depth, nodes, env);
  }

  /** What reading a padded value gives, up to the blanks after it. */
  ghost predicate ReadsAs(s: string, v: Value, rest: string, depth: nat, nodes: nat, env: Env) {
    var r := ParseValue(s, depth, nodes, env);
    r.GotValue? && r.v == v && r.nodes == nodes + Nodes(v) && SkipBlanks(r.rest) == SkipBlanks(rest)
  }

  lemma PaddedReads(s: string, v: Value, rest: string, depth: nat, nodes: nat, env: Env)
    requires WritesPadded(s, v) && Room(v, depth, nodes, env) && Delimits(rest)
    ensures ReadsAs(s + rest, v, rest, depth, nodes, env)
    ensures var t := SkipBlanks(s + rest); t != [] && t[0] != ']' && t[0] != '}'
    decreases Nodes(v), 1
  {
    hide ParseValue, Writes, Room;
    var i, j :| 0 <= i <= j <= |s| && Blank(s[..i]) && Blank(s[j..]) && Writes(s[i..j], v);
    var w, post := s[i..j], s[j..];
    assert s + rest == s[..i] + (w + (post + rest));
    BlanksSkip(s[..i], w + (post + rest));
    WrittenStarts(w, v);
    NoBlanks(w + (post + rest));
    ParsesAlike(s + rest, w + (post + rest), depth, nodes, env);
    if post != [] { BlankChars(post[0]); } else { assert post + rest == rest; }
    ValueReads(w, v, post + rest, depth, nodes, env);
    BlanksSkip(post, rest);
  }

  // ----- Arrays -----

  lemma {:induction false} ArrayReads(s: string, items: seq<Value>, rest: string, depth: nat, nodes: nat, env: Env)
    requires WritesItems(s, items) && ItemRoom(items, 0, depth, nodes, env)
    ensures ParseArray(s + "]" + rest, depth, nodes, env) == GotValue(Array(items), rest, nodes + ItemNodes(items))
    decreases ItemNodes(items), 4
  {
    hide ParseItems, WritesPadded;
    var t := s + "]" + rest;
    assert t == s + ("]" + rest);
    if items == [] {
      BlanksSkip(s, "]" + rest);
      NoBlanks("]" + rest);
      assert ("]" + rest)[1..] == rest;
    } else {
      ItemsRead(s, items, [], rest, depth, nodes, env);
      FirstItemStarts(s, items, "]" + rest, depth, nodes, env);
      ItemsParseAlike(t, SkipBlanks(t), [], depth, nodes, env);
      assert [] + items == items;
    }
  }

  lemma FirstItemStarts(s: string, items: seq<Value>, rest: string, depth: nat, nodes: nat, env: Env)
    requires items != [] && WritesItems(s, items) && ItemRoom(items, 0, depth, nodes, env) && Delimits(rest)
    ensures var t := SkipBlanks(s + rest); t != [] && t[0] != ']' && SkipBlanks(t) == t
    decreases ItemNodes(items), 2
  {
    hide WritesPadded;
    if |items| == 1 {
      PaddedReads(s, items[0], rest, depth, nodes, env);
    } else {
      var k :| 0 <= k < |s| && s[k] == ',' && WritesPadded(s[..k], items[0]) && WritesItems(s[k + 1..], items[1..]);
      assert s + rest == s[..k] + (s[k..] + rest);
      PaddedReads(s[..k], items[0], s[k..] + rest, depth, nodes, env);
    }
  }

  /** One item read, and what comes after its separator. */
  lemma OneItem(s: string, v: Value, sep: char, next: string, acc: seq<Value>, depth: nat, nodes: nat, env: Env)
    requires ReadsAs(s, v, [sep] + next, depth, nodes, env) && |acc| < env.maxContainerItems
    ensures sep == ']' ==> ParseItems(s, acc, depth, nodes, env) == GotValue(Array(acc + [v]), next, nodes + Nodes(v))
    ensures sep == ',' ==>
              ParseItems(s, acc, depth, nodes, env) == ParseItems(next, acc + [v], depth, nodes + Nodes(v), env)
  {
    hide ParseValue;
    assert ([sep] + next)[1..] == next;
    if sep == ']' || sep == ',' { NoBlanks([sep] + next); }
    ItemsParseAlike(next, SkipBlanks(next), acc + [v], depth, nodes + Nodes(v), env);
  }

  lemma Rejoin(s: string, k: nat, close: string, rest: string)
    requires k < |s|
    ensures s + close + rest == s[..k] + ([s[k]] + (s[k + 1..] + close + rest))
  {
    assert s == s[..k] + [s[k]] + s[k + 1..];
  }

  lemma FirstItemRoom(items: seq<Value>, done: nat, depth: nat, nodes: nat, env: Env)
    requires items != [] && ItemRoom(items, done, depth, nodes, env)
    ensures Room(items[0], depth, nodes, env) && done < env.maxContainerItems
    ensures ItemRoom(items[1..], done + 1, depth, nodes + Nodes(items[0]), env)
    ensures ItemNodes(items) == Nodes(items[0]) + ItemNodes(items[1..])
  {
  }

  lemma {:induction false} ItemsRead(s: string, items: seq<Value>, acc: seq<Value>, rest: string, depth: nat,
                                     nodes: nat, env: Env)
    requires items != [] && WritesItems(s, items) && ItemRoom(items, |acc|, depth, nodes, env)
    ensures ParseItems(s + "]" + rest, acc, depth, nodes, env)
         == GotValue(Array(acc + items), rest, nodes + ItemNodes(items))
    decreases ItemNodes(items), 3
  {
    hide ParseItems, ItemRoom, Room, Nodes, ItemNodes, WritesItems, WritesPadded;
    if |items| == 1 {
      LastItemReads(s, items, acc, rest, depth, nodes, env);
    } else {
      var v := items[0];
      var k := FirstItemReads(s, items, acc, rest, depth, nodes, env);
      FirstItemRoom(items, |acc|, depth, nodes, env);
      ItemsRead(s[k + 1..], items[1..], acc + [v], rest, depth, nodes + Nodes(v), env);
      Associates(acc, [v], items[1..]);
      assert items == [v] + items[1..];
    }
  }

  lemma {:induction false} FirstItemReads(s: string, items: seq<Value>, acc: seq<Value>, rest: string, depth: nat,
                                          nodes: nat, env: Env)
    returns (k: nat)
    requires |items| > 1 && WritesItems(s, items) && ItemRoom(items, |acc|, depth, nodes, env)
    ensures k < |s| && WritesItems(s[k + 1..], items[1..])
    ensures ParseItems(s + "]" + rest, acc, depth, nodes, env)
         == ParseItems(s[k + 1..] + "]" + rest, acc + [items[0]], depth, nodes + Nodes(items[0]), env)
    decreases ItemNodes(items), 2
  {
    hide ParseItems, ParseValue, WritesPadded, ReadsAs, ItemRoom, Room, Nodes, ItemNodes;
    var v := items[0];
    k :| 0 <= k < |s| && s[k] == ',' && WritesPadded(s[..k], v) && WritesItems(s[k + 1..], items[1..]);
    var next := s[k + 1..] + "]" + rest;
    FirstItemRoom(items, |acc|, depth, nodes, env);
    Rejoin(s, k, "]", rest);
    PaddedReads(s[..k], v, [','] + next, depth, nodes, env);
    OneItem(s[..k] + ([','] + next), v, ',', next, acc, depth, nodes, env);
  }

  lemma {:induction false} LastItemReads(s: string, items: seq<Value>, acc: seq<Value>, rest: string, depth: nat,
                                         nodes: nat, env: Env)
    requires |items| == 1 && WritesItems(s, items) && ItemRoom(items, |acc|, depth, nodes, env)
    ensures ParseItems(s + "]" + rest, acc, depth, nodes, env)
         == GotValue(Array(acc + items), rest, nodes + ItemNodes(items))
    decreases ItemNodes(items), 2
  {
    hide ParseItems, ParseValue, WritesPadded, ReadsAs, ItemRoom, Room, Nodes, ItemNodes;
    var v := items[0];
    FirstItemRoom(items, |acc|, depth, nodes, env);
    assert s + "]" + rest == s + ([']'] + rest) && items[1..] == [] && items == [v];
    NoItems();
    PaddedReads(s, v, [']'] + rest, depth, nodes, env);
    OneItem(s + ([']'] + rest), v, ']', rest, acc, depth, nodes, env);
  }

  lemma NoItems()
    ensures ItemNodes([]) == 0 && MemberNodes([]) == 0
  {
  }

  // ----- Objects -----

  lemma KeyReads(s: string, key: string, next: string, acc: seq<Member<Value>>, env: Env)
    requires WritesKey(s, key) && !HasKey(acc, key) && env.isNfc(key)
    ensures var t := SkipBlanks(s + ":" + next);
            && t != [] && t[0] == '\"' && ParseKey(t, acc, env) == GotString(key, SkipBlanks(next))
  {
    hide WritesString, ParseStringBody;
    var i, j :| 0 <= i <= j <= |s| && Blank(s[..i]) && Blank(s[j..]) && WritesString(s[i..j], key);
    var w, post := s[i..j], s[j..];
    var t := w + (post + (":" + next));
    assert s + ":" + next == s[..i] + t;
    BlanksSkip(s[..i], t);
    StringLiteralReads(w, key, post + (":" + next));
    NoBlanks(t);
    BlanksSkip(post, ":" + next);
    NoBlanks(":" + next);
    assert (":" + next)[1..] == next;
  }

  /** One member read, and what comes after its separator. */
  lemma OneMember(s: string, m: Member<Value>, sep: char, next: string, acc: seq<Member<Value>>, depth: nat, nodes: nat,
                  env: Env)
    requires WritesMember(s, m) && !HasKey(acc, m.key) && env.isNfc(m.key) && |acc| < env.maxContainerItems
    requires Room(m.value, depth, nodes, env) && (sep == '}' || sep == ',')
    ensures var t := SkipBlanks(s + ([sep] + next));
            && t != [] && t[0] == '\"'
            && (sep == '}' ==>
                  ParseMembers(t, acc, depth, nodes, env) == GotValue(Object(acc + [m]), next, nodes + Nodes(m.value)))
            && (sep == ',' ==>
                  ParseMembers(t, acc, depth, nodes, env) ==
                    ParseMembers(SkipBlanks(next), acc + [m], depth, nodes + Nodes(m.value), env))
    decreases Nodes(m.value), 2
  {
    hide ParseValue, ParseKey, WritesKey, WritesPadded, Room, SkipBlanks, HasKey, Nodes;
    var k :| 0 <= k < |s| && s[k] == ':' && WritesKey(s[..k], m.key) && WritesPadded(s[k + 1..], m.value);
    var after := s[k + 1..] + ([sep] + next);
    assert s + ([sep] + next) == s[..k] + ":" + after;
    KeyReads(s[..k], m.key, after, acc, env);
    PaddedReads(s[k + 1..], m.value, [sep] + next, depth, nodes, env);
    SkipTwice(after);
    ParsesAlike(after, SkipBlanks(after), depth, nodes, env);
    NoBlanks([sep] + next);
    assert ([sep] + next)[1..] == next;
    assert Member(m.key, m.value) == m;
  }

  lemma SkipTwice(s: string)
    ensures SkipBlanks(SkipBlanks(s)) == SkipBlanks(s)
  {
    if SkipBlanks(s) != [] { NoBlanks(SkipBlanks(s)); }
  }

  lemma {:induction false} ObjectReads(s: string, ms: seq<Member<Value>>, rest: string, depth: nat, nodes: nat,
                                       env: Env)
    requires WritesMembers(s, ms) && MemberRoom(ms, [], depth, nodes, env)
    ensures ParseObject(s + "}" + rest, depth, nodes, env) == GotValue(Object(ms), rest, nodes + MemberNodes(ms))
    decreases MemberNodes(ms), 4
  {
    hide ParseMembers, WritesMember, MemberRoom;
    if ms == [] {
      assert s + "}" + rest == s + ("}" + rest);
      BlanksSkip(s, "}" + rest);
      NoBlanks("}" + rest);
      assert ("}" + rest)[1..] == rest;
    } else {
      MembersRead(s, ms, [], rest, depth, nodes, env);
      assert [] + ms == ms;
    }
  }

  lemma {:induction false} MembersRead(s: string, ms: seq<Member<Value>>, acc: seq<Member<Value>>, rest: string,
                                       depth: nat, nodes: nat, env: Env)
    requires ms != [] && WritesMembers(s, ms) && MemberRoom(ms, acc, depth, nodes, env)
    ensures var t := SkipBlanks(s + "}" + rest);
            && t != [] && t[0] == '\"'
            && ParseMembers(t, acc, depth, nodes, env) == GotValue(Object(acc + ms), rest, nodes + MemberNodes(ms))
    decreases MemberNodes(ms), 3
  {
    hide ParseMembers, ParseValue, WritesMember, MemberRoom, Room, Nodes, MemberNodes, SkipBlanks;
    var m := ms[0];
    FirstMemberRoom(ms, acc, depth, nodes, env);
    if |ms| == 1 {
      assert s + "}" + rest == s + (['}'] + rest) && ms[1..] == [] && ms == [m];
      NoItems();
      OneMember(s, m, '}', rest, acc, depth, nodes, env);
    } else {
      var k :| 0 <= k < |s| && s[k] == ',' && WritesMember(s[..k], m) && WritesMembers(s[k + 1..], ms[1..]);
      var next := s[k + 1..] + "}" + rest;
      Rejoin(s, k, "}", rest);
      OneMember(s[..k], m, ',', next, acc, depth, nodes, env);
      MembersRead(s[k + 1..], ms[1..], acc + [m], rest, depth, nodes + Nodes(m.value), env);
      Associates(acc, [m], ms[1..]);
      assert ms == [m] + ms[1..];
    }
  }

  lemma FirstMemberRoom(ms: seq<Member<Value>>, acc: seq<Member<Value>>, depth: nat, nodes: nat, env: Env)
    requires ms != [] && MemberRoom(ms, acc, depth, nodes, env)
    ensures !HasKey(acc, ms[0].key) && env.isNfc(ms[0].key) && |acc| < env.maxContainerItems
    ensures Room(ms[0].value, depth, nodes, env)
    ensures MemberRoom(ms[1..], acc + [ms[0]], depth, nodes + Nodes(ms[0].value), env)
    ensures MemberNodes(ms) == Nodes(ms[0].value) + MemberNodes(ms[1..])
  {
    var all := acc + ms;
    assert forall i | 0 <= i < |acc| :: acc[i] == all[i] && all[i].key != all[|acc|].key;
    assert acc + [ms[0]] + ms[1..] == all;
  }
}
