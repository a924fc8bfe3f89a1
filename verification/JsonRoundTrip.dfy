/** The parser reads canonical text back as the normalised value. */
module JsonRoundTrip {
  import opened Text
  import opened Json
  import opened JsonOrder
  import opened JsonParse

  // ----- Strings -----

  lemma HexDigitReadsBack(n: nat)
    requires n < 16
    ensures IsHex(LowerHex(n)) && HexValue(LowerHex(n)) == n
  {
  }

  /** One escaped character costs the reader exactly that character. */
  lemma EscapedReadsBack(c: char, tail: string, acc: string)
    ensures ParseStringBody(Escaped(c) + tail, acc) == ParseStringBody(tail, acc + [c])
  {
    var e := Escaped(c);
    var s := e + tail;
    assert s[0] == e[0] && s[1..] == e[1..] + tail;
    if |e| == 2 {
      assert s[1..][0] == e[1] && s[1..][1..] == tail;
    } else if |e| == 6 {
      var h := s[1..][1..];
      assert h == e[2..] + tail && h[4..] == tail;
      HexDigitReadsBack(c as int / 16);
      HexDigitReadsBack(c as int % 16);
      assert FourHex(h) && Hex4(h) == c as int;
    }
  }

  lemma {:induction false} StringReadsBack(s: string, acc: string, rest: string)
    ensures ParseStringBody(EscapedAll(s) + "\"" + rest, acc) == GotString(acc + s, rest)
    decreases |s|
  {
    if s == [] {
      QuoteCloses(acc, rest);
      assert acc + s == acc;
    } else {
      hide ParseStringBody, Escaped, EscapedAll;
      EscapedAllUnfold(acc, s, rest);
      EscapedReadsBack(s[0], EscapedAll(s[1..]) + "\"" + rest, acc);
      StringReadsBack(s[1..], acc + [s[0]], rest);
    }
  }

  lemma {:induction false} EscapedAllUnfold(acc: string, s: string, rest: string)
    requires s != []
    ensures EscapedAll(s) + "\"" + rest == Escaped(s[0]) + (EscapedAll(s[1..]) + "\"" + rest)
    ensures acc + [s[0]] + s[1..] == acc + s
  {
    hide Escaped;
    Associates(Escaped(s[0]), EscapedAll(s[1..]), "\"");
    Associates(Escaped(s[0]), EscapedAll(s[1..]) + "\"", rest);
    Associates(acc, [s[0]], s[1..]);
    assert s == [s[0]] + s[1..];
  }

  lemma QuoteCloses(acc: string, rest: string)
    ensures ParseStringBody(EscapedAll("") + "\"" + rest, acc) == GotString(acc, rest)
  {
    assert EscapedAll("") + "\"" + rest == "\"" + rest && ("\"" + rest)[1..] == rest;
  }

  // ----- Numbers -----

  lemma {:induction false} DecimalReadsBack(n: nat)
    ensures AllDigits(Decimal(n)) && NatOf(Decimal(n)) == n
    ensures n > 0 ==> Decimal(n)[0] != '0'
  {
    if n >= 10 {
      DecimalReadsBack(n / 10);
      assert Decimal(n)[..|Decimal(n)| - 1] == Decimal(n / 10);
    } else {
      assert Decimal(n)[..0] == [];
    }
  }

  lemma TokenEnds(token: string, rest: string)
    requires forall i | 0 <= i < |token| :: !EndsNumber(token[i])
    requires rest != [] ==> EndsNumber(rest[0])
    ensures TokenLength(token + rest) == |token|
  {
    var s := token + rest;
    assert forall i | 0 <= i < |token| :: s[i] == token[i];
    assert rest != [] ==> s[|token|] == rest[0];
  }

  lemma IntegerReadsBack(n: int, rest: string, nodes: nat)
    requires -MAX_SAFE_INTEGER <= n <= MAX_SAFE_INTEGER
    requires rest != [] ==> EndsNumber(rest[0])
    ensures SignedDecimal(n)[0] == '-' || IsDigit(SignedDecimal(n)[0])
    ensures ParseNumber(SignedDecimal(n) + rest, nodes) == GotValue(Integer(n), rest, nodes)
  {
    var token := SignedDecimal(n);
    var digits := Decimal(if n < 0 then -n else n);
    DecimalReadsBack(if n < 0 then -n else n);
    assert Magnitude(token) == digits;
    assert forall i | 0 <= i < |token| :: token[i] == '-' || IsDigit(token[i]);
    TokenEnds(token, rest);
    assert (token + rest)[..|token|] == token && (token + rest)[|token|..] == rest;
    assert token != "-0" by {
      if n < 0 { assert token[1] == digits[0] != '0'; }
    }
  }

  // ----- Values -----

  /** How a canonical text may begin. */
  lemma CanonStarts(v: Value)
    ensures Canon(v) != [] && !IsBlank(Canon(v)[0]) && Canon(v)[0] != ']' && Canon(v)[0] != '}'
    ensures Canon(v)[0] != '\U{FEFF}'
  {
    if v.Integer? { DecimalReadsBack(if v.n < 0 then -v.n else v.n); }
  }

  /** What follows a value inside canonical text: nothing, or a character that ends a number. */
  predicate Delimits(rest: string) { rest != [] ==> EndsNumber(rest[0]) }

  /** Room for `v` under the limits when `nodes` are spent at nesting `depth`. */
  predicate Room(v: Value, depth: nat, nodes: nat, env: Env) {
    && Valid(v, env)
    && nodes + Nodes(v) <= env.maxNodes
    && (Nesting(v) == 0 || depth + Nesting(v) <= env.maxNestingDepth)
  }

  /** Which reader the first character selects for a scalar. */
  lemma ScalarDispatch(s: string, depth: nat, nodes: nat, env: Env)
    requires s != [] && nodes + 1 <= env.maxNodes
    ensures s[0] == 't' ==> ParseValue(s, depth, nodes, env) == ParseKeyword(s, "true", Bool(true), nodes + 1)
    ensures s[0] == 'f' ==> ParseValue(s, depth, nodes, env) == ParseKeyword(s, "false", Bool(false), nodes + 1)
    ensures s[0] == 'n' ==> ParseValue(s, depth, nodes, env) == ParseKeyword(s, "null", Null, nodes + 1)
    ensures s[0] == '-' || IsDigit(s[0]) ==> ParseValue(s, depth, nodes, env) == ParseNumber(s, nodes + 1)
    ensures s[0] == '\"' && ParseStringBody(s[1..], "").GotString? ==>
              var q := ParseStringBody(s[1..], "");
              ParseValue(s, depth, nodes, env) == GotValue(Str(q.s), q.rest, nodes + 1)
  {
    if !IsBlank(s[0]) { assert SkipBlanks(s) == s; }
  }

  lemma KeywordReadsBack(keyword: string, v: Value, rest: string, nodes: nat)
    requires keyword != []
    ensures ParseKeyword(keyword + rest, keyword, v, nodes) == GotValue(v, rest, nodes)
  {
    assert (keyword + rest)[|keyword|..] == rest;
  }

  lemma LiteralReadsBack(t: string, rest: string)
    ensures (Quoted(t) + rest)[0] == '\"'
    ensures ParseStringBody((Quoted(t) + rest)[1..], "") == GotString(t, rest)
  {
    assert (Quoted(t) + rest)[1..] == EscapedAll(t) + "\"" + rest;
    StringReadsBack(t, "", rest);
    assert "" + t == t;
  }

  lemma {:induction false} ScalarReadsBack(v: Value, rest: string, depth: nat, nodes: nat, env: Env)
    requires Room(v, depth, nodes, env) && Delimits(rest) && !v.Array? && !v.Object?
    ensures ParseValue(Canon(v) + rest, depth, nodes, env) == GotValue(v, rest, nodes + 1)
  {
    var text := Canon(v);
    ScalarDispatch(text + rest, depth, nodes, env);
    match v
    case Null => KeywordReadsBack(text, v, rest, nodes + 1);
    case Bool(b) => KeywordReadsBack(text, v, rest, nodes + 1);
    case Integer(n) => IntegerReadsBack(n, rest, nodes + 1);
    case Str(t) => LiteralReadsBack(t, rest);
  }

  /** An opening bracket or brace sends the parser into the container. */
  lemma ContainerOpens(body: string, depth: nat, nodes: nat, env: Env)
    requires nodes + 1 <= env.maxNodes && depth + 1 <= env.maxNestingDepth
    ensures ParseValue("[" + body, depth, nodes, env) == ParseArray(body, depth + 1, nodes + 1, env)
    ensures ParseValue("{" + body, depth, nodes, env) == ParseObject(body, depth + 1, nodes + 1, env)
  {
    assert ("[" + body)[1..] == body && ("{" + body)[1..] == body;
    assert SkipBlanks("[" + body) == "[" + body && SkipBlanks("{" + body) == "{" + body;
  }

  lemma {:induction false} ValueReadsBack(v: Value, rest: string, depth: nat, nodes: nat, env: Env)
    requires Room(v, depth, nodes, env) && Delimits(rest)
    ensures ParseValue(Canon(v) + rest, depth, nodes, env) == GotValue(Normal(v), rest, nodes + Nodes(v))
    decreases Nodes(v), 0
  {
    hide ParseValue, ParseArray, ParseObject, JoinMembers, Rendered, ItemsText, SortByKey;
    match v
    case Array(items) =>
      var body := ItemsText(items) + "]" + rest;
      assert Canon(v) + rest == "[" + body;
      ContainerOpens(body, depth, nodes, env);
      ArrayReadsBack(items, rest, depth + 1, nodes + 1, env);
    case Object(entries) =>
      var body := JoinMembers(SortByKey(Rendered(entries))) + "}" + rest;
      assert Canon(v) + rest == "{" + body;
      ContainerOpens(body, depth, nodes, env);
      ObjectReadsBack(entries, rest, depth + 1, nodes + 1, env);
    case _ => ScalarReadsBack(v, rest, depth, nodes, env);
  }

  predicate ItemRoom(items: seq<Value>, done: nat, depth: nat, nodes: nat, env: Env) {
    && ItemsValid(items, env)
    && done + |items| <= env.maxContainerItems
    && nodes + ItemNodes(items) <= env.maxNodes
    && depth + ItemNesting(items) <= env.maxNestingDepth
  }

  lemma {:induction false} ArrayReadsBack(items: seq<Value>, rest: string, depth: nat, nodes: nat, env: Env)
    requires ItemRoom(items, 0, depth, nodes, env)
    ensures ParseArray(ItemsText(items) + "]" + rest, depth, nodes, env)
         == GotValue(Array(NormalItems(items)), rest, nodes + ItemNodes(items))
    decreases ItemNodes(items), 2
  {
    var s := ItemsText(items) + "]" + rest;
    if items == [] {
      assert s == "]" + rest && s[1..] == rest;
    } else {
      CanonStarts(items[0]);
      assert s[0] == Canon(items[0])[0];
      ItemsReadBack(items, [], rest, depth, nodes, env);
      assert [] + NormalItems(items) == NormalItems(items);
    }
  }

  /** One item and its separator, given how the item itself reads. */
  lemma {:induction false} ItemStep(s: string, v: Value, tail: string, acc: seq<Value>, depth: nat, nodes: nat, n: nat,
                                    env: Env)
    requires |acc| < env.maxContainerItems && ParseValue(s, depth, nodes, env) == GotValue(v, tail, n)
    ensures Starts(tail, ']') ==>
              ParseItems(s, acc, depth, nodes, env) == GotValue(Array(acc + [v]), tail[1..], n)
    ensures Starts(tail, ',') ==>
              ParseItems(s, acc, depth, nodes, env) == ParseItems(SkipBlanks(tail[1..]), acc + [v], depth, n, env)
  {
  }

  /** The text after the separator that follows the first item. */
  function AfterItem(items: seq<Value>, rest: string): string
    requires items != []
  {
    if |items| == 1 then rest else ItemsText(items[1..]) + "]" + rest
  }

  /** The text after the first item. */
  function ItemTail(items: seq<Value>, rest: string): (t: string)
    requires items != []
    ensures Delimits(t)
  {
    (if |items| == 1 then "]" else ",") + AfterItem(items, rest)
  }

  lemma {:induction false} ItemsSplit(items: seq<Value>, rest: string)
    requires items != []
    ensures ItemsText(items) + "]" + rest == Canon(items[0]) + ItemTail(items, rest)
    ensures ItemTail(items, rest)[1..] == AfterItem(items, rest)
    ensures Starts(ItemTail(items, rest), if |items| == 1 then ']' else ',')
    ensures |items| > 1 ==> SkipBlanks(AfterItem(items, rest)) == AfterItem(items, rest)
  {
    if |items| == 1 {
      Regroup(Canon(items[0]), "]", "", "", rest);
    } else {
      Regroup(Canon(items[0]), ",", ItemsText(items[1..]), "]", rest);
      CanonStarts(items[1]);
      assert AfterItem(items, rest)[0] == ItemsText(items[1..])[0] == Canon(items[1])[0];
    }
  }

  lemma Regroup(a: string, b: string, c: string, d: string, e: string)
    ensures a + b + c + d + e == a + (b + (c + d + e))
    ensures a + b + e == a + (b + e)
  {
  }

  lemma {:induction false} ItemsReadBack(items: seq<Value>, acc: seq<Value>, rest: string, depth: nat, nodes: nat,
                                         env: Env)
    requires items != [] && ItemRoom(items, |acc|, depth, nodes, env)
    ensures ParseItems(ItemsText(items) + "]" + rest, acc, depth, nodes, env)
         == GotValue(Array(acc + NormalItems(items)), rest, nodes + ItemNodes(items))
    decreases ItemNodes(items), 1
  {
    hide ParseItems, ParseValue, Canon, Normal, ItemsText, NormalItems, ItemTail;
    var v, n, tail := Normal(items[0]), nodes + Nodes(items[0]), ItemTail(items, rest);
    ItemsSplit(items, rest);
    ValueReadsBack(items[0], tail, depth, nodes, env);
    ItemStep(Canon(items[0]) + tail, v, tail, acc, depth, nodes, n, env);
    NormalItemsUnfold(acc, items);
    if |items| > 1 {
      ItemsReadBack(items[1..], acc + [v], rest, depth, n, env);
    } else {
      assert items[1..] == [];
    }
  }

  lemma {:induction false} NormalItemsUnfold(acc: seq<Value>, items: seq<Value>)
    requires items != []
    ensures acc + NormalItems(items) == acc + [Normal(items[0])] + NormalItems(items[1..])
    ensures |items| == 1 ==> acc + NormalItems(items) == acc + [Normal(items[0])]
  {
    hide Normal;
    Associates(acc, [Normal(items[0])], NormalItems(items[1..]));
  }

  lemma {:induction false} NormalInsert(m: Member<Value>, ms: seq<Member<Value>>)
    ensures NormalMembers(Insert(m, ms)) == Insert(Member(m.key, Normal(m.value)), NormalMembers(ms))
  {
    if ms == [] || KeyLe(m.key, ms[0].key) {
      assert ([m] + ms)[1..] == ms;
    } else {
      NormalInsert(m, ms[1..]);
      assert ([ms[0]] + Insert(m, ms[1..]))[1..] == Insert(m, ms[1..]);
      assert NormalMembers(ms)[1..] == NormalMembers(ms[1..]);
    }
  }

  lemma {:induction false} NormalSort(ms: seq<Member<Value>>)
    ensures NormalMembers(SortByKey(ms)) == SortByKey(NormalMembers(ms))
  {
    if ms != [] {
      NormalSort(ms[1..]);
      NormalInsert(ms[0], SortByKey(ms[1..]));
      assert NormalMembers(ms)[1..] == NormalMembers(ms[1..]);
    }
  }

  predicate MemberRoom(ms: seq<Member<Value>>, acc: seq<Member<Value>>, depth: nat, nodes: nat, env: Env) {
    && MembersValid(ms, env)
    && DistinctKeys(acc + ms)
    && |acc| + |ms| <= env.maxContainerItems
    && nodes + MemberNodes(ms) <= env.maxNodes
    && depth + MemberNesting(ms) <= env.maxNestingDepth
  }

  lemma {:induction false} ObjectReadsBack(ms: seq<Member<Value>>, rest: string, depth: nat, nodes: nat, env: Env)
    requires DistinctKeys(ms) && MemberRoom(ms, [], depth, nodes, env)
    ensures ParseObject(JoinMembers(SortByKey(Rendered(ms))) + "}" + rest, depth, nodes, env)
         == GotValue(Object(SortByKey(NormalMembers(ms))), rest, nodes + MemberNodes(ms))
    decreases MemberNodes(ms), 2
  {
    hide ParseMembers, Canon, Insert, Normal, Quoted;
    var sorted := SortByKey(ms);
    RenderedSort(ms);
    NormalSort(ms);
    MeasureSort(ms, env);
    SortIsPermutation(ms);
    DistinctUnderPermutation(ms, sorted);
    assert [] + sorted == sorted;
    var s := JoinMembers(Rendered(sorted)) + "}" + rest;
    if sorted == [] {
      assert s == "}" + rest && s[1..] == rest;
    } else {
      MembersReadBack(sorted, [], rest, depth, nodes, env);
      MemberTextStarts(Rendered(sorted));
      assert s[0] == '\"';
      assert [] + NormalMembers(sorted) == NormalMembers(sorted);
    }
  }

  /** One member and its separator, given how the value reads. */
  lemma {:induction false} MemberStep(key: string, body: string, v: Value, tail: string, acc: seq<Member<Value>>,
                   depth: nat, nodes: nat, n: nat, env: Env)
    requires |acc| < env.maxContainerItems && !HasKey(acc, key) && env.isNfc(key)
    requires body != [] && !IsBlank(body[0])
    requires ParseValue(body, depth, nodes, env) == GotValue(v, tail, n)
    ensures Starts(tail, '}') ==>
              ParseMembers(Quoted(key) + ":" + body, acc, depth, nodes, env)
                == GotValue(Object(acc + [Member(key, v)]), tail[1..], n)
    ensures Starts(tail, ',') ==>
              ParseMembers(Quoted(key) + ":" + body, acc, depth, nodes, env)
                == ParseMembers(SkipBlanks(tail[1..]), acc + [Member(key, v)], depth, n, env)
  {
    hide ParseStringBody, ParseValue, Quoted;
    var s := Quoted(key) + ":" + body;
    assert s == Quoted(key) + (":" + body);
    LiteralReadsBack(key, ":" + body);
    assert (":" + body)[1..] == body;
    assert SkipBlanks(":" + body) == ":" + body && SkipBlanks(body) == body;
  }

  function AfterMember(ms: seq<Member<Value>>, rest: string): string
    requires ms != []
  {
    if |ms| == 1 then rest else JoinMembers(Rendered(ms[1..])) + "}" + rest
  }

  function MemberTail(ms: seq<Member<Value>>, rest: string): (t: string)
    requires ms != []
    ensures Delimits(t)
  {
    (if |ms| == 1 then "}" else ",") + AfterMember(ms, rest)
  }

  lemma MemberTextStarts(ms: seq<Member<string>>)
    requires ms != []
    ensures Starts(JoinMembers(ms), '\"')
  {
  }

  lemma JoinUnfolds(m: Member<string>, ms: seq<Member<string>>)
    ensures JoinMembers([m] + ms) == if ms == [] then MemberText(m) else MemberText(m) + "," + JoinMembers(ms)
  {
    assert ([m] + ms)[1..] == ms;
  }

  lemma {:induction false} MembersSplit(ms: seq<Member<Value>>, rest: string)
    requires ms != []
    ensures JoinMembers(Rendered(ms)) + "}" + rest
         == Quoted(ms[0].key) + ":" + (Canon(ms[0].value) + MemberTail(ms, rest))
    ensures MemberTail(ms, rest)[1..] == AfterMember(ms, rest)
    ensures |ms| > 1 ==> SkipBlanks(AfterMember(ms, rest)) == AfterMember(ms, rest)
  {
    hide Canon, Quoted;
    var key, text, joined := Quoted(ms[0].key) + ":", Canon(ms[0].value), JoinMembers(Rendered(ms[1..]));
    JoinUnfolds(Member(ms[0].key, text), Rendered(ms[1..]));
    Regroup(key, text, "", "", MemberTail(ms, rest));
    if |ms| == 1 {
      Regroup(key + text, "}", "", "", rest);
    } else {
      Regroup(key + text, ",", joined, "}", rest);
      MemberTextStarts(Rendered(ms[1..]));
      assert AfterMember(ms, rest)[0] == joined[0];
    }
  }

  /** The first member of canonical text, given how its value reads. */
  lemma {:induction false} FirstMemberReads(ms: seq<Member<Value>>, acc: seq<Member<Value>>, rest: string, depth: nat,
                                            nodes: nat, env: Env)
    requires ms != [] && MemberRoom(ms, acc, depth, nodes, env)
    requires ParseValue(Canon(ms[0].value) + MemberTail(ms, rest), depth, nodes, env)
          == GotValue(Normal(ms[0].value), MemberTail(ms, rest), nodes + Nodes(ms[0].value))
    ensures var acc' := acc + [Member(ms[0].key, Normal(ms[0].value))];
            var n := nodes + Nodes(ms[0].value);
            ParseMembers(JoinMembers(Rendered(ms)) + "}" + rest, acc, depth, nodes, env)
            == if |ms| == 1 then GotValue(Object(acc'), rest, n)
               else ParseMembers(JoinMembers(Rendered(ms[1..])) + "}" + rest, acc', depth, n, env)
  {
    hide ParseMembers, ParseValue, Canon, Normal, JoinMembers, MemberRoom, Quoted, Room;
    var m, tail := ms[0], MemberTail(ms, rest);
    MembersSplit(ms, rest);
    MemberRoomSteps(ms, acc, depth, nodes, env);
    CanonStarts(m.value);
    MemberStep(m.key, Canon(m.value) + tail, Normal(m.value), tail, acc, depth, nodes, nodes + Nodes(m.value), env);
  }

  lemma {:induction false} MembersReadBack(ms: seq<Member<Value>>, acc: seq<Member<Value>>, rest: string,
                                           depth: nat, nodes: nat, env: Env)
    requires ms != [] && MemberRoom(ms, acc, depth, nodes, env)
    ensures ParseMembers(JoinMembers(Rendered(ms)) + "}" + rest, acc, depth, nodes, env)
         == GotValue(Object(acc + NormalMembers(ms)), rest, nodes + MemberNodes(ms))
    decreases MemberNodes(ms), 1
  {
    hide ParseMembers, ParseValue, Canon, Normal, JoinMembers, MemberRoom, Room, Rendered, MemberTail, NormalMembers;
    var m := ms[0];
    MemberRoomSteps(ms, acc, depth, nodes, env);
    ValueReadsBack(m.value, MemberTail(ms, rest), depth, nodes, env);
    FirstMemberReads(ms, acc, rest, depth, nodes, env);
    var acc' := acc + [Member(m.key, Normal(m.value))];
    NormalMembersUnfold(acc, ms);
    if |ms| > 1 {
      MembersReadBack(ms[1..], acc', rest, depth, nodes + Nodes(m.value), env);
    } else {
      assert ms[1..] == [];
    }
  }

  lemma {:induction false} NormalMembersUnfold(acc: seq<Member<Value>>, ms: seq<Member<Value>>)
    requires ms != []
    ensures acc + NormalMembers(ms) == acc + [Member(ms[0].key, Normal(ms[0].value))] + NormalMembers(ms[1..])
    ensures |ms| == 1 ==> acc + NormalMembers(ms) == acc + [Member(ms[0].key, Normal(ms[0].value))]
  {
    hide Normal;
    Associates(acc, [Member(ms[0].key, Normal(ms[0].value))], NormalMembers(ms[1..]));
  }

  lemma Associates<T>(a: seq<T>, b: seq<T>, c: seq<T>)
    ensures a + b + c == a + (b + c)
    ensures c == [] ==> a + b + c == a + b
  {
  }

  lemma {:induction false} MemberRoomSteps(ms: seq<Member<Value>>, acc: seq<Member<Value>>, depth: nat, nodes: nat,
                                           env: Env)
    requires ms != [] && MemberRoom(ms, acc, depth, nodes, env)
    ensures !HasKey(acc, ms[0].key) && env.isNfc(ms[0].key) && |acc| < env.maxContainerItems
    ensures Room(ms[0].value, depth, nodes, env)
    ensures MemberRoom(ms[1..], acc + [Member(ms[0].key, Normal(ms[0].value))], depth, nodes + Nodes(ms[0].value), env)
  {
    var all := acc + ms;
    assert forall i | 0 <= i < |acc| :: acc[i] == all[i] && all[i].key != all[|acc|].key;
    var all' := acc + [Member(ms[0].key, Normal(ms[0].value))] + ms[1..];
    assert |all'| == |all| && forall i | 0 <= i < |all| :: all'[i].key == all[i].key;
  }

  /** Whatever canonicalisation emits, strict parsing under the same limits reads back, in key order. */
  lemma CanonicalTextReadsBack(v: Value, env: Env)
    requires Fits(v, env) && env.maxCanonicalBytes <= env.maxInputBytes
    ensures ParseText(Canon(v), env) == Ok(Normal(v))
    ensures Fits(Normal(v), env) && Canon(Normal(v)) == Canon(v)
  {
    NormalKeeps(v, env);
    CanonStarts(v);
    assert Canon(v) + "" == Canon(v);
    ValueReadsBack(v, "", 0, 0, env);
  }
}
