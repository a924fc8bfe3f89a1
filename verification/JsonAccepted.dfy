/** What strict parsing accepts can always be canonicalised, in no more bytes. */
module JsonAccepted {
  import opened Text
  import opened Json
  import opened JsonOrder
  import opened JsonParse
  import opened JsonRoundTrip

  lemma {:induction false} DropShrinks(s: string, k: nat)
    requires k <= |s|
    ensures ByteLen(s) >= k + ByteLen(s[k..])
  {
    if k == 0 {
      assert s[0..] == s;
    } else {
      DropShrinks(s[1..], k - 1);
      assert s[1..][k - 1..] == s[k..];
    }
  }

  lemma {:induction false} SkipShrinks(s: string)
    ensures ByteLen(SkipBlanks(s)) <= ByteLen(s)
  {
    if s != [] && IsBlank(s[0]) { SkipShrinks(s[1..]); }
  }

  lemma {:induction false} EscapedBytes(c: char)
    ensures ByteLen(Escaped(c)) <= 6
    ensures c as int >= 0x20 && c != '\"' && c != '\\' ==> ByteLen(Escaped(c)) == CharBytes(c)
    ensures c in ['\"', '\\', 0x08 as char, 0x0C as char, '\n', '\r', '\t'] ==> ByteLen(Escaped(c)) == 2
  {
    if |Escaped(c)| > 1 {
      assert forall i | 0 <= i < |Escaped(c)| :: Escaped(c)[i] as int < 0x80;
      ByteLenAscii(Escaped(c));
    } else {
      assert Escaped(c)[1..] == [];
    }
  }

  /** An escape is at least as long as the canonical spelling of its character. */
  lemma {:induction false} EscapeShrinks(s: string)
    requires ParseEscape(s).GotChar?
    ensures ByteLen(s) + 1 >= ByteLen(ParseEscape(s).rest) + ByteLen(Escaped(ParseEscape(s).c))
  {
    var c := ParseEscape(s).c;
    EscapedBytes(c);
    DropShrinks(s, 1);
    if s[0] == 'u' {
      var t := s[1..];
      DropShrinks(t, 4);
      if 0xD800 <= Hex4(t) <= 0xDBFF {
        DropShrinks(t, 6);
        DropShrinks(t[6..], 4);
      }
    }
  }

  lemma {:induction false} StringShrinks(s: string, acc: string)
    requires ParseStringBody(s, acc).GotString?
    ensures acc <= ParseStringBody(s, acc).s
    ensures ByteLen(s) >= ByteLen(ParseStringBody(s, acc).rest) + 1
                        + ByteLen(EscapedAll(ParseStringBody(s, acc).s[|acc|..]))
    decreases |s|
  {
    hide Escaped, ParseEscape;
    var r := ParseStringBody(s, acc);
    if s[0] == '\"' {
      assert r.s[|acc|..] == [];
    } else {
      var c := if s[0] == '\\' then ParseEscape(s[1..]).c else s[0];
      var next := if s[0] == '\\' then ParseEscape(s[1..]).rest else s[1..];
      if s[0] == '\\' { EscapeShrinks(s[1..]); } else { EscapedBytes(c); }
      StringShrinks(next, acc + [c]);
      var t := r.s[|acc|..];
      assert t[0] == c && t[1..] == r.s[|acc| + 1..];
      ByteLenConcat(Escaped(c), EscapedAll(t[1..]));
    }
  }

  lemma {:induction false} QuotedBytes(t: string)
    ensures ByteLen(Quoted(t)) == ByteLen(EscapedAll(t)) + 2
  {
    ByteLenConcat("\"" + EscapedAll(t), "\"");
    ByteLenConcat("\"", EscapedAll(t));
    assert ByteLen("\"") == 1;
  }

  lemma LiteralShrinks(s: string)
    requires Starts(s, '\"') && ParseStringBody(s[1..], "").GotString?
    ensures ByteLen(s) >= ByteLen(ParseStringBody(s[1..], "").rest) + ByteLen(Quoted(ParseStringBody(s[1..], "").s))
  {
    hide ParseStringBody, Quoted;
    StringShrinks(s[1..], "");
    var t := ParseStringBody(s[1..], "").s;
    assert t[0..] == t;
    QuotedBytes(t);
  }

  // ----- Numbers -----

  /** A token without a leading zero is the canonical spelling of its own value. */
  lemma {:induction false} DigitsAreDecimal(digits: string)
    requires digits != [] && AllDigits(digits) && (digits == "0" || digits[0] != '0')
    ensures Decimal(NatOf(digits)) == digits
    ensures digits != "0" ==> NatOf(digits) > 0
  {
    var k := |digits| - 1;
    var init, d := digits[..k], digits[k] as int - '0' as int;
    assert digits == init + [digits[k]];
    if k == 0 {
      assert NatOf(init) == 0;
      assert digits == [Digit(d)];
    } else {
      assert init[0] == digits[0];
      DigitsAreDecimal(init);
      assert NatOf(digits) / 10 == NatOf(init) && NatOf(digits) % 10 == d;
    }
  }

  lemma TokenIsDecimal(token: string)
    requires ValidInteger(token) && token != "-0"
    ensures SignedDecimal(IntOf(token)) == token
  {
    DigitsAreDecimal(Magnitude(token));
    if Starts(token, '-') {
      assert token == "-" + Magnitude(token);
    }
  }

  lemma {:induction false} NumberShrinks(s: string, nodes: nat)
    requires s != [] && !EndsNumber(s[0]) && ParseNumber(s, nodes).GotValue?
    ensures var r := ParseNumber(s, nodes);
            r.v.Integer? && -MAX_SAFE_INTEGER <= r.v.n <= MAX_SAFE_INTEGER
            && r.nodes == nodes && ByteLen(s) == ByteLen(r.rest) + Size(r.v)
  {
    hide ByteLen, ValidInteger, IntOf, SignedDecimal;
    var token := s[..TokenLength(s)];
    TokenIsDecimal(token);
    assert s == token + s[|token|..];
    ByteLenConcat(token, s[|token|..]);
  }

  lemma KeywordShrinks(s: string, keyword: string)
    requires keyword <= s
    ensures ByteLen(s) == ByteLen(s[|keyword|..]) + ByteLen(keyword)
  {
    assert s == keyword + s[|keyword|..];
    ByteLenConcat(keyword, s[|keyword|..]);
  }

  // ----- Values -----

  /** What a successful read from `s` promises about its value, rest and node count. */
  ghost predicate Sound(s: string, r: ValueStep, depth: nat, nodes: nat, env: Env) {
    r.GotValue? ==>
      && Room(r.v, depth, nodes, env)
      && r.nodes == nodes + Nodes(r.v)
      && ByteLen(s) >= ByteLen(r.rest) + Size(r.v)
  }

  lemma {:induction false} ScalarIsSound(s: string, depth: nat, nodes: nat, env: Env)
    requires s != [] && !IsBlank(s[0]) && s[0] != '{' && s[0] != '['
    ensures Sound(s, ParseValue(s, depth, nodes, env), depth, nodes, env)
  {
    hide ParseStringBody, ParseNumber, ParseArray, ParseObject;
    var r := ParseValue(s, depth, nodes, env);
    assert SkipBlanks(s) == s;
    if r.GotValue? {
      if s[0] == '\"' {
        LiteralShrinks(s);
      } else if s[0] == 't' {
        KeywordShrinks(s, "true");
      } else if s[0] == 'f' {
        KeywordShrinks(s, "false");
      } else if s[0] == 'n' {
        KeywordShrinks(s, "null");
      } else {
        NumberShrinks(s, nodes + 1);
      }
    }
  }

  /** Leading blanks change nothing but the length. */
  lemma BlanksAreSkipped(s: string, depth: nat, nodes: nat, env: Env)
    ensures ParseValue(SkipBlanks(s), depth, nodes, env) == ParseValue(s, depth, nodes, env)
  {
    assert SkipBlanks(SkipBlanks(s)) == SkipBlanks(s);
  }

  lemma {:induction false} ContainerSize(body: string)
    ensures ByteLen("[" + body + "]") == ByteLen(body) + 2
    ensures ByteLen("{" + body + "}") == ByteLen(body) + 2
  {
    ByteLenConcat("[" + body, "]");
    ByteLenConcat("[", body);
    ByteLenConcat("{" + body, "}");
    ByteLenConcat("{", body);
    assert ByteLen("[") == ByteLen("]") == ByteLen("{") == ByteLen("}") == 1;
  }

  lemma {:induction false} ValueIsSound(s: string, depth: nat, nodes: nat, env: Env)
    ensures Sound(s, ParseValue(s, depth, nodes, env), depth, nodes, env)
    decreases |s|, 0
  {
    hide ParseArray, ParseObject, ParseStringBody, ParseNumber, ParseKeyword;
    var t := SkipBlanks(s);
    SkipShrinks(s);
    BlanksAreSkipped(s, depth, nodes, env);
    if t != [] {
      if t[0] == '[' && nodes + 1 <= env.maxNodes && depth + 1 <= env.maxNestingDepth {
        ArrayIsSound(t[1..], depth + 1, nodes + 1, env);
      } else if t[0] == '{' && nodes + 1 <= env.maxNodes && depth + 1 <= env.maxNestingDepth {
        ObjectIsSound(t[1..], depth + 1, nodes + 1, env);
      } else if t[0] != '[' && t[0] != '{' {
        ScalarIsSound(t, depth, nodes, env);
      }
    }
  }

  /** The same promise for the inside of an array: its items, its length and its bytes. */
  ghost predicate ItemsSound(s: string, done: nat, r: ValueStep, depth: nat, nodes: nat, env: Env) {
    r.GotValue? ==>
      && r.v.Array?
      && done < |r.v.items| <= env.maxContainerItems
      && var got := r.v.items[done..];
      && ItemsValid(got, env)
      && r.nodes == nodes + ItemNodes(got) <= env.maxNodes
      && (ItemNesting(got) == 0 || depth + ItemNesting(got) <= env.maxNestingDepth)
      && ByteLen(s) >= ByteLen(r.rest) + ByteLen(ItemsText(got)) + 1
  }

  lemma {:induction false} ArrayIsSound(s: string, depth: nat, nodes: nat, env: Env)
    requires nodes <= env.maxNodes && depth <= env.maxNestingDepth
    ensures var r := ParseArray(s, depth, nodes, env);
            r.GotValue? ==>
              && r.v.Array?
              && Valid(r.v, env)
              && r.nodes + 1 == nodes + Nodes(r.v) && r.nodes <= env.maxNodes
              && depth + Nesting(r.v) <= env.maxNestingDepth + 1
              && ByteLen(s) + 1 >= ByteLen(r.rest) + Size(r.v)
    decreases |s|, 2
  {
    hide ParseItems, ItemNodes, ItemNesting;
    var r := ParseArray(s, depth, nodes, env);
    var t := SkipBlanks(s);
    SkipShrinks(s);
    if Starts(t, ']') {
      DropShrinks(t, 1);
      assert ItemNodes([]) == 0 && ItemNesting([]) == 0 by { EmptyItems(env); }
    } else {
      ItemsAreSound(t, [], depth, nodes, env);
      if r.GotValue? { assert r.v.items[0..] == r.v.items; }
    }
    if r.GotValue? { ContainerSize(ItemsText(r.v.items)); }
  }

  lemma EmptyItems(env: Env)
    ensures ItemsValid([], env)
    ensures ItemNodes([]) == 0 && ItemNesting([]) == 0 && MemberNodes([]) == 0 && MemberNesting([]) == 0
  {
  }

  lemma {:induction false} ItemsUnfold(v: Value, vs: seq<Value>, env: Env)
    ensures ItemsValid([v] + vs, env) <==> Valid(v, env) && ItemsValid(vs, env)
    ensures ItemNodes([v] + vs) == Nodes(v) + ItemNodes(vs)
    ensures ItemNesting([v] + vs) == Max(Nesting(v), ItemNesting(vs))
    ensures ByteLen(ItemsText([v] + vs)) == Size(v) + (if vs == [] then 0 else 1 + ByteLen(ItemsText(vs)))
  {
    assert ([v] + vs)[1..] == vs;
    ItemsTextBytes([v] + vs);
  }

  lemma {:induction false} ItemsTextBytes(items: seq<Value>)
    requires items != []
    ensures ByteLen(ItemsText(items)) ==
              Size(items[0]) + (if |items| == 1 then 0 else 1 + ByteLen(ItemsText(items[1..])))
  {
    hide Canon;
    if |items| > 1 {
      ByteLenConcat(Canon(items[0]) + ",", ItemsText(items[1..]));
      ByteLenConcat(Canon(items[0]), ",");
      assert ByteLen(",") == 1;
    }
  }

  lemma {:induction false} ItemsAreSound(s: string, acc: seq<Value>, depth: nat, nodes: nat, env: Env)
    ensures ItemsSound(s, |acc|, ParseItems(s, acc, depth, nodes, env), depth, nodes, env)
    ensures var r := ParseItems(s, acc, depth, nodes, env); r.GotValue? ==> r.v.Array? && acc <= r.v.items
    decreases |s|, 1
  {
    hide ParseValue, Canon, Valid, Nodes, Nesting, ItemsValid, ItemNodes, ItemNesting, ItemsText;
    var r := ParseItems(s, acc, depth, nodes, env);
    if r.GotValue? {
      var p := ParseValue(s, depth, nodes, env);
      ValueIsSound(s, depth, nodes, env);
      var t := SkipBlanks(p.rest);
      SkipShrinks(p.rest);
      DropShrinks(t, 1);
      if Starts(t, ']') {
        assert r.v.items[|acc|..] == [p.v] + [];
        ItemsUnfold(p.v, [], env);
        EmptyItems(env);
      } else {
        var acc' := acc + [p.v];
        var u := SkipBlanks(t[1..]);
        SkipShrinks(t[1..]);
        ItemsAreSound(u, acc', depth, p.nodes, env);
        var got := r.v.items[|acc'|..];
        assert r.v.items[|acc|] == acc'[|acc|] == p.v;
        assert r.v.items[|acc|..] == [p.v] + got;
        ItemsUnfold(p.v, got, env);
      }
    }
  }

  /** The same promise for the inside of an object, whose keys stay distinct from those in `acc`. */
  ghost predicate MembersSound(s: string, acc: seq<Member<Value>>, r: ValueStep, depth: nat, nodes: nat, env: Env) {
    r.GotValue? ==>
      && r.v.Object?
      && acc < r.v.entries
      && |r.v.entries| <= env.maxContainerItems
      && (DistinctKeys(acc) ==> DistinctKeys(r.v.entries))
      && var got := r.v.entries[|acc|..];
      && MembersValid(got, env)
      && r.nodes == nodes + MemberNodes(got) <= env.maxNodes
      && (MemberNesting(got) == 0 || depth + MemberNesting(got) <= env.maxNestingDepth)
      && ByteLen(s) >= ByteLen(r.rest) + JoinedBytes(Rendered(got))
  }

  lemma {:induction false} ObjectIsSound(s: string, depth: nat, nodes: nat, env: Env)
    requires nodes <= env.maxNodes && depth <= env.maxNestingDepth
    ensures var r := ParseObject(s, depth, nodes, env);
            r.GotValue? ==>
              && r.v.Object?
              && Valid(r.v, env)
              && r.nodes + 1 == nodes + Nodes(r.v) && r.nodes <= env.maxNodes
              && depth + Nesting(r.v) <= env.maxNestingDepth + 1
              && ByteLen(s) + 1 >= ByteLen(r.rest) + Size(r.v)
    decreases |s|, 2
  {
    hide ParseMembers, MemberNodes, MemberNesting, JoinMembers, SortByKey, JoinedBytes;
    var r := ParseObject(s, depth, nodes, env);
    var t := SkipBlanks(s);
    SkipShrinks(s);
    if Starts(t, '}') {
      DropShrinks(t, 1);
      EmptyItems(env);
      ContainerSize("");
      EmptyObject();
    } else {
      MembersAreSound(t, [], depth, nodes, env);
      if r.GotValue? {
        assert r.v.entries[0..] == r.v.entries;
        ObjectSize(r.v.entries);
      }
    }
  }

  lemma EmptyObject()
    ensures Size(Object([])) == 2
  {
    assert Canon(Object([])) == "{}";
    ByteLenAscii("{}");
  }

  /** Sorting members costs no bytes. */
  lemma {:induction false} ObjectSize(ms: seq<Member<Value>>)
    requires ms != []
    ensures Size(Object(ms)) == 1 + JoinedBytes(Rendered(ms))
  {
    hide JoinMembers, SortByKey, JoinedBytes, Rendered;
    var sorted := SortByKey(Rendered(ms));
    ContainerSize(JoinMembers(sorted));
    SortIsPermutation(Rendered(ms));
    JoinMembersBytes(sorted);
    JoinedBytesSort(Rendered(ms));
  }

  lemma {:induction false} JoinedBytesOfRendered(m: Member<Value>, ms: seq<Member<Value>>)
    ensures JoinedBytes(Rendered([m] + ms))
         == ByteLen(Quoted(m.key)) + 1 + Size(m.value) + 1 + JoinedBytes(Rendered(ms))
  {
    hide Canon, Quoted;
    assert ([m] + ms)[1..] == ms;
    var r := Member(m.key, Canon(m.value));
    assert Rendered([m] + ms) == [r] + Rendered(ms);
    assert ([r] + Rendered(ms))[1..] == Rendered(ms);
    ByteLenConcat(Quoted(m.key) + ":", Canon(m.value));
    ByteLenConcat(Quoted(m.key), ":");
    assert ByteLen(":") == 1;
  }

  /** The member measures of a list from those of its head and tail. */
  lemma {:induction false} MembersUnfold(m: Member<Value>, ms: seq<Member<Value>>, env: Env)
    ensures MembersValid([m] + ms, env) <==> env.isNfc(m.key) && Valid(m.value, env) && MembersValid(ms, env)
    ensures MemberNodes([m] + ms) == Nodes(m.value) + MemberNodes(ms)
    ensures MemberNesting([m] + ms) == Max(Nesting(m.value), MemberNesting(ms))
  {
    assert ([m] + ms)[1..] == ms;
  }

  lemma DistinctGrows(acc: seq<Member<Value>>, m: Member<Value>)
    requires DistinctKeys(acc) && !HasKey(acc, m.key)
    ensures DistinctKeys(acc + [m])
  {
  }

  /** A key costs its canonical spelling and a colon. */
  lemma KeyIsSound(s: string, acc: seq<Member<Value>>, env: Env)
    requires ParseKey(s, acc, env).GotString?
    ensures var k := ParseKey(s, acc, env);
            && !HasKey(acc, k.s) && env.isNfc(k.s)
            && ByteLen(s) >= ByteLen(k.rest) + ByteLen(Quoted(k.s)) + 1
  {
    hide ParseStringBody, Quoted;
    LiteralShrinks(s);
    var k := ParseStringBody(s[1..], "");
    var t := SkipBlanks(k.rest);
    SkipShrinks(k.rest);
    DropShrinks(t, 1);
    SkipShrinks(t[1..]);
  }

  lemma {:induction false} MembersAreSound(s: string, acc: seq<Member<Value>>, depth: nat, nodes: nat, env: Env)
    ensures MembersSound(s, acc, ParseMembers(s, acc, depth, nodes, env), depth, nodes, env)
    decreases |s|, 1
  {
    hide ParseValue, ParseKey, Canon, Valid, Nodes, Nesting, Quoted, JoinedBytes, Rendered, MembersValid, MemberNodes,
         MemberNesting, HasKey;
    var r := ParseMembers(s, acc, depth, nodes, env);
    if r.GotValue? {
      KeyIsSound(s, acc, env);
      var k := ParseKey(s, acc, env);
      var p := ParseValue(k.rest, depth, nodes, env);
      ValueIsSound(k.rest, depth, nodes, env);
      var m := Member(k.s, p.v);
      var u := SkipBlanks(p.rest);
      SkipShrinks(p.rest);
      DropShrinks(u, 1);
      if DistinctKeys(acc) { DistinctGrows(acc, m); }
      if Starts(u, '}') {
        MembersEnd(s, acc, m, r, depth, nodes, env);
      } else {
        SkipShrinks(u[1..]);
        MembersAreSound(SkipBlanks(u[1..]), acc + [m], depth, p.nodes, env);
        MembersGoOn(s, SkipBlanks(u[1..]), acc, m, r, depth, nodes, p.nodes, env);
      }
    }
  }

  lemma {:induction false} MembersEnd(s: string, acc: seq<Member<Value>>, m: Member<Value>, r: ValueStep,
                                      depth: nat, nodes: nat, env: Env)
    requires r.GotValue? && r.v == Object(acc + [m]) && |acc| < env.maxContainerItems
    requires DistinctKeys(acc) ==> DistinctKeys(acc + [m])
    requires env.isNfc(m.key) && Room(m.value, depth, nodes, env) && r.nodes == nodes + Nodes(m.value)
    requires ByteLen(s) >= ByteLen(Quoted(m.key)) + 1 + Size(m.value) + 1 + ByteLen(r.rest)
    ensures MembersSound(s, acc, r, depth, nodes, env)
  {
    hide Canon, Valid, Nodes, Nesting, Quoted;
    assert (acc + [m])[|acc|..] == [m] + [];
    MembersUnfold(m, [], env);
    JoinedBytesOfRendered(m, []);
  }

  lemma {:induction false} MembersGoOn(s: string, next: string, acc: seq<Member<Value>>, m: Member<Value>, r: ValueStep,
                                       depth: nat, nodes: nat, n: nat, env: Env)
    requires r.GotValue? && MembersSound(next, acc + [m], r, depth, n, env)
    requires DistinctKeys(acc) ==> DistinctKeys(acc + [m])
    requires env.isNfc(m.key) && Room(m.value, depth, nodes, env) && n == nodes + Nodes(m.value)
    requires ByteLen(s) >= ByteLen(Quoted(m.key)) + 1 + Size(m.value) + 1 + ByteLen(next)
    ensures MembersSound(s, acc, r, depth, nodes, env)
  {
    hide Canon, Valid, Nodes, Nesting, Quoted, JoinedBytes, Rendered, MembersValid, MemberNodes, MemberNesting,
         DistinctKeys;
    var got := r.v.entries[|acc| + 1..];
    assert r.v.entries[|acc|] == (acc + [m])[|acc|] == m;
    assert r.v.entries[|acc|..] == [m] + got;
    MembersUnfold(m, got, env);
    JoinedBytesOfRendered(m, got);
  }

  // ----- Main results -----

  /** Accepted input canonicalises, in at most as many bytes; both passes accept the same values. */
  lemma AcceptedInputCanonicalises(text: string, env: Env)
    requires ParseText(text, env).Ok? && env.maxInputBytes <= env.maxCanonicalBytes
    ensures Fits(ParseText(text, env).value, env)
    ensures ByteLen(Canon(ParseText(text, env).value)) <= ByteLen(text)
  {
    hide ParseValue, Canon, Valid, Nodes, Nesting;
    var s := SkipBlanks(text);
    ValueIsSound(s, 0, 0, env);
    SkipShrinks(text);
  }

  /** Canonicalising accepted input is stable: the text parses to the same content and prints itself. */
  lemma CanonicalFormIsStable(text: string, env: Env)
    requires ParseText(text, env).Ok? && env.maxInputBytes <= env.maxCanonicalBytes
    ensures var v := ParseText(text, env).value;
            Fits(v, env) && ParseText(Canon(v), env) == Ok(Normal(v)) && Canon(Normal(v)) == Canon(v)
  {
    hide Canon, Valid, Nodes, Nesting, Normal;
    AcceptedInputCanonicalises(text, env);
    var v := ParseText(text, env).value;
    NormalKeeps(v, env);
    CanonStarts(v);
    assert Canon(v) + "" == Canon(v);
    ValueReadsBack(v, "", 0, 0, env);
  }
}
