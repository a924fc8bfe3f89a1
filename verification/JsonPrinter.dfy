/** The size pass and the canonical writer, step by step as they run. */
module JsonPrinter {
  import opened Text
  import opened Json
  import opened JsonOrder
  import opened JsonRoundTrip
  import opened JsonAccepted
  import opened JsonCanonical

  // ----- Strings -----

  function EscapedSize(c: char): nat {
    if c in {'\"', '\\', 0x08 as char, '\t', '\n', 0x0C as char, '\r'} then 2
    else if c as int < 0x20 then 6
    else CharBytes(c)
  }

  lemma {:induction false} EscapedSizeIsExact(c: char)
    ensures EscapedSize(c) == ByteLen(Escaped(c))
  {
    if |Escaped(c)| > 1 {
      assert forall i | 0 <= i < |Escaped(c)| :: Escaped(c)[i] as int < 0x80;
      ByteLenAscii(Escaped(c));
    } else {
      assert Escaped(c)[1..] == [];
    }
  }

  lemma {:induction false} EscapedAllSnoc(s: string, c: char)
    ensures EscapedAll(s + [c]) == EscapedAll(s) + Escaped(c)
  {
    hide Escaped;
    if s == [] {
      assert s + [c] == [c];
    } else {
      assert (s + [c])[1..] == s[1..] + [c];
      EscapedAllSnoc(s[1..], c);
      Associates(Escaped(s[0]), EscapedAll(s[1..]), Escaped(c));
    }
  }

  lemma {:induction false} EscapedAllSnocBytes(s: string, i: nat)
    requires i < |s|
    ensures EscapedAll(s[..i + 1]) == EscapedAll(s[..i]) + Escaped(s[i])
    ensures ByteLen(EscapedAll(s[..i + 1])) == ByteLen(EscapedAll(s[..i])) + EscapedSize(s[i])
  {
    hide EscapedAll, Escaped, EscapedSize;
    assert s[..i + 1] == s[..i] + [s[i]];
    EscapedAllSnoc(s[..i], s[i]);
    ByteLenConcat(EscapedAll(s[..i]), Escaped(s[i]));
    EscapedSizeIsExact(s[i]);
  }

  lemma {:induction false} EscapedPrefixBytes(s: string, i: nat)
    requires i <= |s|
    ensures ByteLen(EscapedAll(s[..i])) <= ByteLen(EscapedAll(s))
    decreases |s| - i
  {
    if i == |s| {
      assert s[..i] == s;
    } else {
      EscapedAllSnocBytes(s, i);
      EscapedPrefixBytes(s, i + 1);
    }
  }

  /** Bytes of a string literal; the running total is checked after every character. */
  method CanonicalStringSize(value: string, limit: nat) returns (r: Result<nat>)
    ensures r.Ok? <==> value == [] || ByteLen(Quoted(value)) <= limit
    ensures r.Ok? ==> r.value == ByteLen(Quoted(value))
    ensures r.Err? ==> r.code == ResourceLimit
  {
    hide EscapedAll, Quoted, EscapedSize;
    QuotedBytes(value);
    var total := 2;
    assert value[..0] == "" && EscapedAll("") == "" by { EmptyEscaped(); }
    for i := 0 to |value|
      invariant total == 2 + ByteLen(EscapedAll(value[..i]))
      invariant i > 0 ==> total <= limit
    {
      EscapedAllSnocBytes(value, i);
      total := total + EscapedSize(value[i]);
      if total > limit {
        EscapedPrefixBytes(value, i + 1);
        return Err(ResourceLimit);
      }
    }
    assert value[..|value|] == value;
    return Ok(total);
  }

  lemma EmptyEscaped()
    ensures EscapedAll("") == ""
  {
  }

  // ----- Size pass -----

  /** When the size pass accepts `v` with `nodes` already counted at nesting `depth`. */
  ghost predicate Measurable(v: Value, depth: nat, nodes: nat, env: Env) {
    Room(v, depth, nodes, env) && Size(v) <= env.maxCanonicalBytes
  }

  ghost predicate ItemsWithin(items: seq<Value>, depth: nat, nodes: nat, env: Env) {
    && ItemsValid(items, env)
    && nodes + ItemNodes(items) <= env.maxNodes
    && (ItemNesting(items) == 0 || depth + ItemNesting(items) <= env.maxNestingDepth)
    && Size(Array(items)) <= env.maxCanonicalBytes
  }

  lemma {:induction false} ArraySizeUnfold(v: Value, vs: seq<Value>)
    ensures Size(Array([])) == 2
    ensures Size(Array([v] + vs)) == Size(Array(vs)) + Size(v) + (if vs == [] then 0 else 1)
  {
    hide Canon;
    ContainerSize(ItemsText([v] + vs));
    ContainerSize(ItemsText(vs));
    ContainerSize("");
    ArrayCanon([v] + vs);
    ArrayCanon(vs);
    ArrayCanon([]);
    assert ([v] + vs)[1..] == vs;
    ItemsTextBytes([v] + vs);
    assert ItemsText([]) == "" && ByteLen("") == 0;
  }

  lemma ArrayCanon(items: seq<Value>)
    ensures Canon(Array(items)) == "[" + ItemsText(items) + "]"
  {
  }

  lemma {:induction false} ItemsSnoc(a: seq<Value>, v: Value, env: Env)
    ensures ItemsValid(a + [v], env) <==> ItemsValid(a, env) && Valid(v, env)
    ensures ItemNodes(a + [v]) == ItemNodes(a) + Nodes(v)
    ensures ItemNesting(a + [v]) == Max(ItemNesting(a), Nesting(v))
    ensures Size(Array(a + [v])) == Size(Array(a)) + Size(v) + (if a == [] then 0 else 1)
  {
    hide Canon, Valid, Nodes, Nesting;
    if a == [] {
      assert a + [v] == [v] + [];
      ItemsUnfold(v, [], env);
      ArraySizeUnfold(v, []);
    } else {
      ItemsSnoc(a[1..], v, env);
      assert a + [v] == [a[0]] + (a[1..] + [v]) && a == [a[0]] + a[1..];
      ItemsUnfold(a[0], a[1..] + [v], env);
      ItemsUnfold(a[0], a[1..], env);
      ArraySizeUnfold(a[0], a[1..] + [v]);
      ArraySizeUnfold(a[0], a[1..]);
    }
  }

  /** What the whole list meets, each prefix of it meets. */
  lemma {:induction false} ItemsPrefixWithin(items: seq<Value>, i: nat, depth: nat, nodes: nat, env: Env)
    requires i <= |items| && ItemsWithin(items, depth, nodes, env)
    ensures ItemsWithin(items[..i], depth, nodes, env)
    decreases |items| - i
  {
    hide Canon, ItemsValid, ItemNodes, ItemNesting;
    if i == |items| {
      assert items[..i] == items;
    } else {
      ItemsPrefixWithin(items, i + 1, depth, nodes, env);
      assert items[..i + 1] == items[..i] + [items[i]];
      ItemsSnoc(items[..i], items[i], env);
    }
  }

  lemma {:induction false} ItemsPrefixValid(items: seq<Value>, i: nat, env: Env)
    requires i <= |items| && ItemsValid(items, env)
    ensures ItemsValid(items[..i], env)
    decreases |items| - i
  {
    hide Canon, ItemsValid, ItemNodes, ItemNesting;
    if i == |items| {
      assert items[..i] == items;
    } else {
      ItemsPrefixValid(items, i + 1, env);
      assert items[..i + 1] == items[..i] + [items[i]];
      ItemsSnoc(items[..i], items[i], env);
    }
  }

  ghost predicate MembersWithin(ms: seq<Member<Value>>, depth: nat, nodes: nat, env: Env) {
    && MembersValid(ms, env)
    && DistinctKeys(ms)
    && nodes + MemberNodes(ms) <= env.maxNodes
    && (MemberNesting(ms) == 0 || depth + MemberNesting(ms) <= env.maxNestingDepth)
    && Size(Object(ms)) <= env.maxCanonicalBytes
  }

  /** Bytes one member adds to an object that already has `others` members. */
  function MemberCost(m: Member<Value>, others: nat): nat {
    ByteLen(Quoted(m.key)) + 1 + Size(m.value) + (if others == 0 then 0 else 1)
  }

  lemma {:induction false} ObjectSizeUnfold(m: Member<Value>, ms: seq<Member<Value>>)
    ensures Size(Object([])) == 2
    ensures Size(Object([m] + ms)) == Size(Object(ms)) + MemberCost(m, |ms|)
  {
    hide Canon, Quoted, JoinedBytes, Rendered;
    EmptyObject();
    ObjectSize([m] + ms);
    JoinedBytesOfRendered(m, ms);
    if ms == [] {
      assert JoinedBytes(Rendered([])) == 0 by { NothingJoined(); }
    } else {
      ObjectSize(ms);
    }
  }

  lemma NothingJoined()
    ensures JoinedBytes(Rendered([])) == 0
  {
  }

  lemma {:induction false} MembersSnoc(a: seq<Member<Value>>, m: Member<Value>, env: Env)
    ensures MembersValid(a + [m], env) <==> MembersValid(a, env) && env.isNfc(m.key) && Valid(m.value, env)
    ensures MemberNodes(a + [m]) == MemberNodes(a) + Nodes(m.value)
    ensures MemberNesting(a + [m]) == Max(MemberNesting(a), Nesting(m.value))
    ensures Size(Object(a + [m])) == Size(Object(a)) + MemberCost(m, |a|)
  {
    hide Canon, Valid, Nodes, Nesting, Quoted;
    if a == [] {
      assert a + [m] == [m] + [];
      MembersUnfold(m, [], env);
      ObjectSizeUnfold(m, []);
    } else {
      MembersSnoc(a[1..], m, env);
      assert a + [m] == [a[0]] + (a[1..] + [m]) && a == [a[0]] + a[1..];
      MembersUnfold(a[0], a[1..] + [m], env);
      MembersUnfold(a[0], a[1..], env);
      ObjectSizeUnfold(a[0], a[1..] + [m]);
      ObjectSizeUnfold(a[0], a[1..]);
    }
  }

  lemma {:induction false} MembersPrefixWithin(ms: seq<Member<Value>>, i: nat, depth: nat, nodes: nat, env: Env)
    requires i <= |ms| && MembersWithin(ms, depth, nodes, env)
    ensures MembersWithin(ms[..i], depth, nodes, env)
    decreases |ms| - i
  {
    hide Canon, MembersValid, MemberNodes, MemberNesting, Quoted;
    if i == |ms| {
      assert ms[..i] == ms;
    } else {
      MembersPrefixWithin(ms, i + 1, depth, nodes, env);
      assert ms[..i + 1] == ms[..i] + [ms[i]];
      MembersSnoc(ms[..i], ms[i], env);
    }
  }

  lemma {:induction false} MembersPrefixValid(ms: seq<Member<Value>>, i: nat, env: Env)
    requires i <= |ms| && MembersValid(ms, env)
    ensures MembersValid(ms[..i], env)
    decreases |ms| - i
  {
    hide Canon, MembersValid, MemberNodes, MemberNesting, Quoted;
    if i == |ms| {
      assert ms[..i] == ms;
    } else {
      MembersPrefixValid(ms, i + 1, env);
      assert ms[..i + 1] == ms[..i] + [ms[i]];
      MembersSnoc(ms[..i], ms[i], env);
    }
  }

  /**
   * The size pass: it succeeds exactly on measurable values, its result is the byte length of the
   * canonical text, and a value inside the domain is refused only for a resource limit.
   */
  method CanonicalSize(v: Value, depth: nat, nodes: nat, env: Env) returns (r: Result<nat>, used: nat)
    ensures r.Ok? <==> Measurable(v, depth, nodes, env)
    ensures r.Ok? ==> r.value == Size(v) && used == nodes + Nodes(v)
    ensures r.Err? && Valid(v, env) ==> r.code == ResourceLimit
    decreases v, 1
  {
    hide Decimal, Quoted;
    used := nodes + 1;
    if used > env.maxNodes { return Err(ResourceLimit), used; }
    var size: nat;
    match v {
      case Null => size := 4; ScalarSizes();
      case Bool(b) => size := if b then 4 else 5; ScalarSizes();
      case Integer(n) =>
        if !(-MAX_SAFE_INTEGER <= n <= MAX_SAFE_INTEGER) { return Err(NumberTokenForbidden), used; }
        size := ByteLen(SignedDecimal(n));
      case Str(s) =>
        r := CanonicalStringSize(s, env.maxCanonicalBytes);
        if r.Err? { return r, used; }
        size := r.value;
      case Array(items) =>
        r, used := CanonicalArraySize(items, depth, used, env);
        return;
      case Object(entries) =>
        r, used := CanonicalObjectSize(entries, depth, used, env);
        return;
    }
    if size > env.maxCanonicalBytes { return Err(ResourceLimit), used; }
    return Ok(size), used;
  }

  lemma ScalarSizes()
    ensures Size(Null) == 4 && Size(Bool(true)) == 4 && Size(Bool(false)) == 5
  {
    ByteLenAscii("null");
    ByteLenAscii("true");
    ByteLenAscii("false");
  }

  method CanonicalArraySize(items: seq<Value>, depth: nat, nodes: nat, env: Env) returns (r: Result<nat>, used: nat)
    requires nodes <= env.maxNodes
    ensures r.Ok? <==> depth + 1 <= env.maxNestingDepth && |items| <= env.maxContainerItems
                       && ItemsWithin(items, depth + 1, nodes, env)
    ensures r.Ok? ==> r.value == Size(Array(items)) && used == nodes + ItemNodes(items)
    ensures r.Err? && ItemsValid(items, env) ==> r.code == ResourceLimit
    decreases items, 0
  {
    hide Canon, Valid, Nodes, Nesting, ItemsValid, ItemNodes, ItemNesting;
    used := nodes;
    if depth + 1 > env.maxNestingDepth { return Err(ResourceLimit), used; }
    if |items| > env.maxContainerItems { return Err(ResourceLimit), used; }
    var total := 2;
    EmptyItems(env);
    ArraySizeUnfold(Null, []);
    assert items[..0] == [];
    for i := 0 to |items|
      invariant total == Size(Array(items[..i])) && used == nodes + ItemNodes(items[..i])
      invariant i > 0 ==> ItemsWithin(items[..i], depth + 1, nodes, env)
      invariant ItemsValid(items[..i], env) && ItemNesting(items[..0]) == 0 && used <= env.maxNodes
    {
      assert items[..i + 1] == items[..i] + [items[i]];
      ItemsSnoc(items[..i], items[i], env);
      if ItemsWithin(items, depth + 1, nodes, env) { ItemsPrefixWithin(items, i + 1, depth + 1, nodes, env); }
      if ItemsValid(items, env) { ItemsPrefixValid(items, i + 1, env); }
      if i != 0 {
        total := total + 1;
        if total > env.maxCanonicalBytes { return Err(ResourceLimit), used; }
      }
      r, used := CanonicalSize(items[i], depth + 1, used, env);
      if r.Err? { return; }
      total := total + r.value;
      if total > env.maxCanonicalBytes { return Err(ResourceLimit), used; }
    }
    assert items[..|items|] == items;
    if total > env.maxCanonicalBytes { return Err(ResourceLimit), used; }
    return Ok(total), used;
  }

  method CanonicalObjectSize(ms: seq<Member<Value>>, depth: nat, nodes: nat,
                             env: Env)
    returns (r: Result<nat>, used: nat)
    requires nodes <= env.maxNodes
    ensures r.Ok? <==> depth + 1 <= env.maxNestingDepth && |ms| <= env.maxContainerItems
                       && MembersWithin(ms, depth + 1, nodes, env)
    ensures r.Ok? ==> r.value == Size(Object(ms)) && used == nodes + MemberNodes(ms)
    ensures r.Err? && MembersValid(ms, env) && DistinctKeys(ms) ==> r.code == ResourceLimit
    decreases ms, 0
  {
    hide Canon, Valid, Nodes, Nesting, MembersValid, MemberNodes, MemberNesting, Quoted;
    used := nodes;
    if depth + 1 > env.maxNestingDepth { return Err(ResourceLimit), used; }
    if |ms| > env.maxContainerItems { return Err(ResourceLimit), used; }
    var total, seen := 2, {};
    EmptyMembers(env);
    EmptyObject();
    assert ms[..0] == [];
    for i := 0 to |ms|
      invariant total == Size(Object(ms[..i])) && used == nodes + MemberNodes(ms[..i])
      invariant i > 0 ==> MembersWithin(ms[..i], depth + 1, nodes, env)
      invariant MembersValid(ms[..i], env) && DistinctKeys(ms[..i]) && MemberNesting(ms[..0]) == 0
      invariant used <= env.maxNodes
      invariant seen == set j | 0 <= j < i :: ms[j].key
    {
      assert ms[..i + 1] == ms[..i] + [ms[i]];
      MembersSnoc(ms[..i], ms[i], env);
      if MembersWithin(ms, depth + 1, nodes, env) { MembersPrefixWithin(ms, i + 1, depth + 1, nodes, env); }
      if MembersValid(ms, env) { MembersPrefixValid(ms, i + 1, env); }
      var key := ms[i].key;
      if key in seen { return Err(DuplicateKey), used; }
      seen := seen + {key};
      if !env.isNfc(key) { return Err(KeyNotNfc), used; }
      if i != 0 {
        total := total + 1;
        if total > env.maxCanonicalBytes { return Err(ResourceLimit), used; }
      }
      r := CanonicalStringSize(key, env.maxCanonicalBytes);
      if r.Err? { return; }
      total := total + r.value;
      if total > env.maxCanonicalBytes { return Err(ResourceLimit), used; }
      total := total + 1;
      if total > env.maxCanonicalBytes { return Err(ResourceLimit), used; }
      r, used := CanonicalSize(ms[i].value, depth + 1, used, env);
      if r.Err? { return; }
      total := total + r.value;
      if total > env.maxCanonicalBytes { return Err(ResourceLimit), used; }
    }
    assert ms[..|ms|] == ms;
    if total > env.maxCanonicalBytes { return Err(ResourceLimit), used; }
    return Ok(total), used;
  }

  lemma EmptyMembers(env: Env)
    ensures MembersValid([], env) && MemberNodes([]) == 0 && MemberNesting([]) == 0
  {
  }

  // ----- Writer -----

  method WriteJsonString(value: string, output: string) returns (out: string)
    ensures out == output + Quoted(value)
  {
    hide EscapedAll, Escaped;
    out := output + "\"";
    EmptyEscaped();
    assert value[..0] == "";
    for i := 0 to |value|
      invariant out == output + "\"" + EscapedAll(value[..i])
    {
      EscapedAllSnocBytes(value, i);
      Associates(output + "\"", EscapedAll(value[..i]), Escaped(value[i]));
      out := out + Escaped(value[i]);
    }
    assert value[..|value|] == value;
    out := out + "\"";
    Regroup(output, "\"", EscapedAll(value), "", "\"");
    assert out == output + Quoted(value);
  }

  lemma {:induction false} ItemsTextSnoc(a: seq<Value>, v: Value)
    ensures ItemsText(a + [v]) == if a == [] then Canon(v) else ItemsText(a) + "," + Canon(v)
  {
    hide Canon;
    if a == [] {
      assert a + [v] == [v];
    } else {
      assert (a + [v])[1..] == a[1..] + [v];
      ItemsTextSnoc(a[1..], v);
      Associates(Canon(a[0]) + ",", ItemsText(a[1..]), "," + Canon(v));
      Associates(ItemsText(a[1..]), ",", Canon(v));
      Associates(ItemsText(a), ",", Canon(v));
    }
  }

  lemma {:induction false} JoinMembersSnoc(a: seq<Member<string>>, m: Member<string>)
    ensures JoinMembers(a + [m]) == if a == [] then MemberText(m) else JoinMembers(a) + "," + MemberText(m)
  {
    hide MemberText;
    if a == [] {
      assert a + [m] == [m];
    } else {
      assert (a + [m])[1..] == a[1..] + [m];
      JoinMembersSnoc(a[1..], m);
      Associates(MemberText(a[0]) + ",", JoinMembers(a[1..]), "," + MemberText(m));
      Associates(JoinMembers(a[1..]), ",", MemberText(m));
      Associates(JoinMembers(a), ",", MemberText(m));
    }
  }

  lemma {:induction false} RenderedSnoc(a: seq<Member<Value>>, m: Member<Value>)
    ensures Rendered(a + [m]) == Rendered(a) + [Member(m.key, Canon(m.value))]
  {
    hide Canon;
    if a == [] {
      assert a + [m] == [m] + [] && ([m] + [])[1..] == [];
    } else {
      assert (a + [m])[1..] == a[1..] + [m];
      RenderedSnoc(a[1..], m);
      Associates([Member(a[0].key, Canon(a[0].value))], Rendered(a[1..]), [Member(m.key, Canon(m.value))]);
    }
  }

  lemma {:induction false} ItemNodesAt(items: seq<Value>, i: nat)
    requires i < |items|
    ensures Nodes(items[i]) <= ItemNodes(items) && |items| <= ItemNodes(items)
    decreases |items|
  {
    if |items| > 1 { ItemNodesAt(items[1..], if i == 0 then 0 else i - 1); }
  }

  lemma {:induction false} MemberNodesAt(ms: seq<Member<Value>>, i: nat)
    requires i < |ms|
    ensures Nodes(ms[i].value) <= MemberNodes(ms) && |ms| <= MemberNodes(ms)
    decreases |ms|
  {
    if |ms| > 1 { MemberNodesAt(ms[1..], if i == 0 then 0 else i - 1); }
  }

  /** The domain without a container limit: any bound of at least the node count is no bound. */
  function Unbounded(env: Env, k: nat): Env { env.(maxContainerItems := k) }

  /** The writer fails exactly outside the domain; otherwise it appends the canonical text. */
  method WriteCanonical(v: Value, output: string, env: Env, ghost k: nat) returns (r: Result<()>, out: string)
    requires Nodes(v) <= k
    ensures r.Ok? <==> Valid(v, Unbounded(env, k))
    ensures r.Ok? ==> out == output + Canon(v)
    decreases Nodes(v), 1
  {
    hide ItemsValid, MembersValid, ItemNodes, MemberNodes, ItemsText, JoinMembers, SortByKey, Quoted, SignedDecimal,
         DistinctKeys;
    out := output;
    r := Ok(());
    match v {
      case Null => out := out + "null";
      case Bool(b) => out := out + (if b then "true" else "false");
      case Integer(n) =>
        if !(-MAX_SAFE_INTEGER <= n <= MAX_SAFE_INTEGER) { return Err(NumberTokenForbidden), out; }
        out := out + SignedDecimal(n);
      case Str(s) => out := WriteJsonString(s, out);
      case Array(items) =>
        if |items| > 0 { ItemNodesAt(items, 0); }
        r, out := WriteArray(items, output, env, k);
      case Object(entries) =>
        if |entries| > 0 { MemberNodesAt(entries, 0); }
        r, out := WriteObject(entries, output, env, k);
    }
  }

  method WriteArray(items: seq<Value>, output: string, env: Env, ghost k: nat) returns (r: Result<()>, out: string)
    requires ItemNodes(items) <= k
    ensures r.Ok? <==> ItemsValid(items, Unbounded(env, k))
    ensures r.Ok? ==> out == output + ("[" + ItemsText(items) + "]")
    decreases ItemNodes(items) + 1, 0
  {
    hide Canon, Valid, Nodes, ItemsValid, ItemNodes, ItemNesting, ItemsText;
    ghost var e := Unbounded(env, k);
    out := output + "[";
    r := Ok(());
    EmptyItems(e);
    NoItemsText();
    assert items[..0] == [];
    for i := 0 to |items|
      invariant r.Ok? && ItemsValid(items[..i], e)
      invariant out == output + "[" + ItemsText(items[..i])
    {
      assert items[..i + 1] == items[..i] + [items[i]];
      ItemsSnoc(items[..i], items[i], e);
      ItemsTextSnoc(items[..i], items[i]);
      ItemNodesAt(items, i);
      if ItemsValid(items, e) { ItemsPrefixValid(items, i + 1, e); }
      if i != 0 { out := out + ","; }
      ghost var before := out;
      r, out := WriteCanonical(items[i], out, env, k);
      if r.Err? { return; }
      TextGrows(output + "[", ItemsText(items[..i]), Canon(items[i]), before, i);
    }
    assert items[..|items|] == items;
    out := out + "]";
    Regroup(output, "[", ItemsText(items), "", "]");
  }

  lemma NoItemsText()
    ensures ItemsText([]) == "" && JoinMembers(Rendered([])) == ""
  {
  }

  lemma TextGrows(prefix: string, sofar: string, item: string, before: string, i: nat)
    requires before == if i == 0 then prefix + sofar else prefix + sofar + ","
    requires i == 0 ==> sofar == ""
    ensures before + item == prefix + (if i == 0 then item else sofar + "," + item)
  {
  }

  method WriteObject(ms: seq<Member<Value>>, output: string, env: Env,
                     ghost k: nat)
    returns (r: Result<()>, out: string)
    requires MemberNodes(ms) <= k
    ensures r.Ok? <==> MembersValid(ms, Unbounded(env, k)) && DistinctKeys(ms)
    ensures r.Ok? ==> out == output + ("{" + JoinMembers(SortByKey(Rendered(ms))) + "}")
    decreases MemberNodes(ms) + 1, 0
  {
    hide Canon, Valid, Nodes, Rendered, JoinMembers, MembersValid, MemberNodes, MemberNesting, SortByKey;
    ghost var e := Unbounded(env, k);
    out := output;
    r := CheckKeys(ms, env);
    if r.Err? {
      KeysOfValid(ms, e);
      return;
    }
    var ordered := SortByKey(ms);
    RenderedSort(ms);
    MeasureSort(ms, e);
    out := out + "{";
    EmptyMembers(e);
    NoItemsText();
    assert ordered[..0] == [];
    for i := 0 to |ordered|
      invariant r.Ok? && MembersValid(ordered[..i], e)
      invariant out == output + "{" + JoinMembers(Rendered(ordered[..i]))
    {
      var m := ordered[i];
      assert ordered[..i + 1] == ordered[..i] + [m];
      MembersSnoc(ordered[..i], m, e);
      RenderedSnoc(ordered[..i], m);
      JoinMembersSnoc(Rendered(ordered[..i]), Member(m.key, Canon(m.value)));
      MemberNodesAt(ordered, i);
      if MembersValid(ordered, e) { MembersPrefixValid(ordered, i + 1, e); }
      if i != 0 { out := out + ","; }
      ghost var before := out;
      out := WriteJsonString(m.key, out);
      out := out + ":";
      r, out := WriteCanonical(m.value, out, env, k);
      if r.Err? { return; }
      KeysStayNfc(ms, ordered, i, env);
      MemberAppended(before, Quoted(m.key), Canon(m.value));
      TextGrows(output + "{", JoinMembers(Rendered(ordered[..i])), MemberText(Member(m.key, Canon(m.value))), before,
                i);
    }
    assert ordered[..|ordered|] == ordered;
    out := out + "}";
    Regroup(output, "{", JoinMembers(Rendered(ordered)), "", "}");
  }

  lemma MemberAppended(before: string, key: string, text: string)
    ensures before + key + ":" + text == before + (key + ":" + text)
  {
  }

  /** The key pass of the writer: distinct and NFC, checked before anything is written. */
  method CheckKeys(ms: seq<Member<Value>>, env: Env) returns (r: Result<()>)
    ensures r.Ok? <==> DistinctKeys(ms) && forall i | 0 <= i < |ms| :: env.isNfc(ms[i].key)
    ensures r.Err? && DistinctKeys(ms) ==> r.code == KeyNotNfc
    ensures r.Err? && (forall i | 0 <= i < |ms| :: env.isNfc(ms[i].key)) ==> r.code == DuplicateKey
  {
    var seen := {};
    for i := 0 to |ms|
      invariant seen == set j | 0 <= j < i :: ms[j].key
      invariant DistinctKeys(ms[..i]) && forall j | 0 <= j < i :: env.isNfc(ms[j].key)
    {
      if ms[i].key in seen { return Err(DuplicateKey); }
      seen := seen + {ms[i].key};
      if !env.isNfc(ms[i].key) { return Err(KeyNotNfc); }
    }
    assert ms[..|ms|] == ms;
    return Ok(());
  }

  lemma {:induction false} KeysOfValid(ms: seq<Member<Value>>, env: Env)
    ensures MembersValid(ms, env) ==> forall i | 0 <= i < |ms| :: env.isNfc(ms[i].key)
  {
    if ms != [] && MembersValid(ms, env) {
      KeysOfValid(ms[1..], env);
      assert forall i | 0 < i < |ms| :: ms[i] == ms[1..][i - 1];
    }
  }

  lemma KeysStayNfc(ms: seq<Member<Value>>, ordered: seq<Member<Value>>, i: nat, env: Env)
    requires ordered == SortByKey(ms) && i < |ordered|
    requires forall j | 0 <= j < |ms| :: env.isNfc(ms[j].key)
    ensures env.isNfc(ordered[i].key)
  {
    SortIsPermutation(ms);
    assert ordered[i] in multiset(ms);
  }

  /**
   * Canonical output exists exactly when the value fits, and then it is the canonical text; the
   * writer never fails after the size pass and writes exactly as many bytes as that pass announced.
   */
  method CanonicalJson(v: Value, env: Env) returns (r: Result<string>)
    ensures r.Ok? <==> Fits(v, env)
    ensures r.Ok? ==> r.value == Canon(v) && CanonicalText(r.value, v)
    ensures r.Err? && Valid(v, env) ==> r.code == ResourceLimit
  {
    hide Canon, Valid, Nodes, Nesting, CanonicalText;
    if env.maxNestingDepth > HARD_MAX_NESTING_DEPTH { return Err(ResourceLimit); }
    var size, used := CanonicalSize(v, 0, 0, env);
    if size.Err? { return Err(size.code); }
    ghost var k := Nodes(v) + env.maxContainerItems;
    ValidUnderLargerLimit(v, env, Unbounded(env, k));
    var outcome, output := WriteCanonical(v, "", env, k);
    assert outcome.Ok? && ByteLen(output) == size.value by { assert "" + Canon(v) == Canon(v); }
    assert "" + Canon(v) == Canon(v);
    CanonIsCanonical(output, v, env);
    return Ok(output);
  }
}
