/** Sorting members by key, and what normalising a value keeps. */
module JsonOrder {
  import opened Text
  import opened Json

  ghost predicate Sorted<T>(ms: seq<Member<T>>) {
    forall i, j | 0 <= i < j < |ms| :: KeyLe(ms[i].key, ms[j].key)
  }

  lemma {:induction false} InsertIsPermutation<T>(m: Member<T>, ms: seq<Member<T>>)
    ensures multiset(Insert(m, ms)) == multiset([m] + ms)
    ensures |Insert(m, ms)| == |ms| + 1
  {
    if !(ms == [] || KeyLe(m.key, ms[0].key)) {
      InsertIsPermutation(m, ms[1..]);
      assert ms == [ms[0]] + ms[1..];
    }
  }

  lemma {:induction false} SortIsPermutation<T>(ms: seq<Member<T>>)
    ensures multiset(SortByKey(ms)) == multiset(ms)
    ensures |SortByKey(ms)| == |ms|
  {
    if ms != [] {
      SortIsPermutation(ms[1..]);
      InsertIsPermutation(ms[0], SortByKey(ms[1..]));
      assert ms == [ms[0]] + ms[1..];
    }
  }

  lemma {:induction false} InsertIsSorted<T>(m: Member<T>, ms: seq<Member<T>>)
    requires Sorted(ms)
    ensures Sorted(Insert(m, ms))
  {
    if ms == [] {
    } else if KeyLe(m.key, ms[0].key) {
      forall j | 0 <= j < |ms| ensures KeyLe(m.key, ms[j].key) {
        if j > 0 { KeyOrderIsTotal(m.key, ms[0].key, ms[j].key); }
      }
    } else {
      InsertIsSorted(m, ms[1..]);
      InsertIsPermutation(m, ms[1..]);
      var rest := Insert(m, ms[1..]);
      forall j | 0 <= j < |rest| ensures KeyLe(ms[0].key, rest[j].key) {
        KeyOrderIsTotal(m.key, ms[0].key, ms[0].key);
        assert rest[j] in multiset([m] + ms[1..]);
        assert rest[j] == m || rest[j] in ms[1..];
      }
    }
  }

  lemma {:induction false} SortIsSorted<T>(ms: seq<Member<T>>)
    ensures Sorted(SortByKey(ms))
  {
    if ms != [] {
      SortIsSorted(ms[1..]);
      InsertIsSorted(ms[0], SortByKey(ms[1..]));
    }
  }

  lemma {:induction false} SortOfSorted<T>(ms: seq<Member<T>>)
    requires Sorted(ms)
    ensures SortByKey(ms) == ms
  {
    if ms != [] {
      SortOfSorted(ms[1..]);
      assert ms == [ms[0]] + ms[1..];
    }
  }

  lemma SortedHeadsAgree<T>(a: seq<Member<T>>, b: seq<Member<T>>)
    requires Sorted(a) && Sorted(b) && DistinctKeys(a)
    requires a != [] && b != [] && a[0] in b && b[0] in a
    ensures a[0] == b[0]
  {
    var i :| 0 <= i < |b| && b[i] == a[0];
    var j :| 0 <= j < |a| && a[j] == b[0];
    KeyOrderIsTotal(a[0].key, b[0].key, b[0].key);
    KeyOrderIsTotal(a[0].key, a[0].key, a[0].key);
  }

  /** With distinct keys there is only one sorted arrangement, whatever sorting routine made it. */
  lemma {:induction false} SortedIsUnique<T>(a: seq<Member<T>>, b: seq<Member<T>>)
    requires Sorted(a) && Sorted(b) && DistinctKeys(a)
    requires multiset(a) == multiset(b)
    ensures a == b
  {
    assert |a| == |multiset(a)| && |b| == |multiset(b)|;
    if a != [] {
      assert a[0] in multiset(b) && b[0] in multiset(a);
      SortedHeadsAgree(a, b);
      TailMultiset(a);
      TailMultiset(b);
      SortedIsUnique(a[1..], b[1..]);
      assert a == [a[0]] + a[1..] && b == [b[0]] + b[1..];
    }
  }

  lemma TailMultiset<T>(s: seq<T>)
    requires s != []
    ensures multiset(s[1..]) == multiset(s) - multiset{s[0]}
  {
    assert s == [s[0]] + s[1..];
  }

  lemma DistinctUnderPermutation<T>(a: seq<Member<T>>, b: seq<Member<T>>)
    requires multiset(a) == multiset(b) && DistinctKeys(a)
    ensures DistinctKeys(b)
  {
    forall i, j | 0 <= i < j < |b| ensures b[i].key != b[j].key {
      if b[i].key == b[j].key {
        assert b[i] in multiset(a) && b[j] in multiset(a);
        var x :| 0 <= x < |a| && a[x] == b[i];
        var y :| 0 <= y < |a| && a[y] == b[j];
        DuplicateCounts(b, i, j);
        SingleCounts(a, x);
        assert false;
      }
    }
  }

  lemma DuplicateCounts<T>(s: seq<T>, i: nat, j: nat)
    requires i < j < |s| && s[i] == s[j]
    ensures multiset(s)[s[i]] >= 2
  {
    assert s == s[..i] + [s[i]] + s[i+1..j] + [s[j]] + s[j+1..];
  }

  lemma SingleCounts<T>(s: seq<T>, i: nat)
    requires i < |s| && forall k | 0 <= k < |s| && k != i :: s[k] != s[i]
    ensures multiset(s)[s[i]] == 1
  {
    assert s == s[..i] + [s[i]] + s[i+1..];
    assert s[i] !in s[..i] && s[i] !in s[i+1..];
  }

  // ----- Rendering commutes with sorting -----

  lemma {:induction false} RenderedInsert(m: Member<Value>, ms: seq<Member<Value>>)
    ensures Rendered(Insert(m, ms)) == Insert(Member(m.key, Canon(m.value)), Rendered(ms))
  {
    if ms == [] || KeyLe(m.key, ms[0].key) {
      assert ([m] + ms)[1..] == ms;
    } else {
      RenderedInsert(m, ms[1..]);
      assert ([ms[0]] + Insert(m, ms[1..]))[1..] == Insert(m, ms[1..]);
      assert Rendered(ms)[1..] == Rendered(ms[1..]);
    }
  }

  lemma {:induction false} RenderedSort(ms: seq<Member<Value>>)
    ensures Rendered(SortByKey(ms)) == SortByKey(Rendered(ms))
  {
    if ms != [] {
      RenderedSort(ms[1..]);
      RenderedInsert(ms[0], SortByKey(ms[1..]));
      assert Rendered(ms)[1..] == Rendered(ms[1..]);
    }
  }

  // ----- Measures do not depend on member order -----

  lemma {:induction false} MeasureInsert(m: Member<Value>, ms: seq<Member<Value>>, env: Env)
    ensures MemberNodes(Insert(m, ms)) == Nodes(m.value) + MemberNodes(ms)
    ensures MemberNesting(Insert(m, ms)) == Max(Nesting(m.value), MemberNesting(ms))
    ensures MembersValid(Insert(m, ms), env) <==>
              env.isNfc(m.key) && Valid(m.value, env) && MembersValid(ms, env)
  {
    if ms == [] || KeyLe(m.key, ms[0].key) {
      assert ([m] + ms)[1..] == ms;
    } else {
      MeasureInsert(m, ms[1..], env);
      assert ([ms[0]] + Insert(m, ms[1..]))[1..] == Insert(m, ms[1..]);
    }
  }

  lemma {:induction false} MeasureSort(ms: seq<Member<Value>>, env: Env)
    ensures MemberNodes(SortByKey(ms)) == MemberNodes(ms)
    ensures MemberNesting(SortByKey(ms)) == MemberNesting(ms)
    ensures MembersValid(SortByKey(ms), env) <==> MembersValid(ms, env)
  {
    if ms != [] {
      MeasureSort(ms[1..], env);
      MeasureInsert(ms[0], SortByKey(ms[1..]), env);
    }
  }

  /** Sum of the member texts and one separator each; order does not matter to it. */
  function JoinedBytes(ms: seq<Member<string>>): nat {
    if ms == [] then 0 else ByteLen(MemberText(ms[0])) + 1 + JoinedBytes(ms[1..])
  }

  lemma {:induction false} JoinedBytesInsert(m: Member<string>, ms: seq<Member<string>>)
    ensures JoinedBytes(Insert(m, ms)) == ByteLen(MemberText(m)) + 1 + JoinedBytes(ms)
  {
    if ms == [] || KeyLe(m.key, ms[0].key) {
      assert ([m] + ms)[1..] == ms;
    } else {
      JoinedBytesInsert(m, ms[1..]);
      assert ([ms[0]] + Insert(m, ms[1..]))[1..] == Insert(m, ms[1..]);
    }
  }

  lemma {:induction false} JoinedBytesSort(ms: seq<Member<string>>)
    ensures JoinedBytes(SortByKey(ms)) == JoinedBytes(ms)
  {
    if ms != [] {
      JoinedBytesSort(ms[1..]);
      JoinedBytesInsert(ms[0], SortByKey(ms[1..]));
    }
  }

  lemma {:induction false} JoinMembersBytes(ms: seq<Member<string>>)
    requires ms != []
    ensures ByteLen(JoinMembers(ms)) + 1 == JoinedBytes(ms)
  {
    if |ms| > 1 {
      JoinMembersBytes(ms[1..]);
      ByteLenConcat(MemberText(ms[0]) + ",", JoinMembers(ms[1..]));
      ByteLenConcat(MemberText(ms[0]), ",");
      assert ByteLen(",") == 1;
    } else {
      assert ms[1..] == [];
    }
  }

  // ----- Normalising -----

  /** Normalising changes member order only: same text, same measures, same acceptance. */
  lemma {:induction false} NormalKeeps(v: Value, env: Env)
    ensures Canon(Normal(v)) == Canon(v)
    ensures Nodes(Normal(v)) == Nodes(v)
    ensures Nesting(Normal(v)) == Nesting(v)
    ensures Valid(v, env) <==> Valid(Normal(v), env)
    decreases v, 1
  {
    match v
    case Array(items) =>
      NormalItemsKeep(items, env);
    case Object(ms) =>
      NormalMembersKeep(ms, env);
      var ns := NormalMembers(ms);
      SortIsSorted(ns);
      SortOfSorted(SortByKey(ns));
      RenderedSort(ns);
      RenderedSort(SortByKey(ns));
      MeasureSort(ns, env);
      SortIsPermutation(ns);
      if DistinctKeys(ms) {
        DistinctUnderPermutation(ns, SortByKey(ns));
      }
      if DistinctKeys(SortByKey(ns)) {
        DistinctUnderPermutation(SortByKey(ns), ns);
        assert forall i | 0 <= i < |ms| :: ms[i].key == ns[i].key;
      }
    case _ =>
  }

  lemma {:induction false} NormalItemsKeep(items: seq<Value>, env: Env)
    ensures ItemsText(NormalItems(items)) == ItemsText(items)
    ensures ItemNodes(NormalItems(items)) == ItemNodes(items)
    ensures ItemNesting(NormalItems(items)) == ItemNesting(items)
    ensures ItemsValid(items, env) <==> ItemsValid(NormalItems(items), env)
    decreases items, 0
  {
    if items != [] {
      NormalKeeps(items[0], env);
      NormalItemsKeep(items[1..], env);
      assert NormalItems(items)[1..] == NormalItems(items[1..]);
    }
  }

  lemma {:induction false} NormalMembersKeep(ms: seq<Member<Value>>, env: Env)
    ensures Rendered(NormalMembers(ms)) == Rendered(ms)
    ensures MemberNodes(NormalMembers(ms)) == MemberNodes(ms)
    ensures MemberNesting(NormalMembers(ms)) == MemberNesting(ms)
    ensures MembersValid(ms, env) <==> MembersValid(NormalMembers(ms), env)
    decreases ms, 0
  {
    if ms != [] {
      NormalKeeps(ms[0].value, env);
      NormalMembersKeep(ms[1..], env);
      assert NormalMembers(ms)[1..] == NormalMembers(ms[1..]);
    }
  }

  // ----- Limits -----

  /** Validity depends on the item limit and the NFC test only, and a larger item limit keeps it. */
  lemma {:induction false} ValidUnderLargerLimit(v: Value, env: Env, other: Env)
    requires Valid(v, env) && env.maxContainerItems <= other.maxContainerItems && env.isNfc == other.isNfc
    ensures Valid(v, other)
    decreases v, 1
  {
    match v
    case Array(items) => ItemsUnderLargerLimit(items, env, other);
    case Object(ms) => MembersUnderLargerLimit(ms, env, other);
    case _ =>
  }

  lemma {:induction false} ItemsUnderLargerLimit(items: seq<Value>, env: Env, other: Env)
    requires ItemsValid(items, env) && env.maxContainerItems <= other.maxContainerItems && env.isNfc == other.isNfc
    ensures ItemsValid(items, other)
    decreases items, 0
  {
    if items != [] {
      ValidUnderLargerLimit(items[0], env, other);
      ItemsUnderLargerLimit(items[1..], env, other);
    }
  }

  lemma {:induction false} MembersUnderLargerLimit(ms: seq<Member<Value>>, env: Env, other: Env)
    requires MembersValid(ms, env) && env.maxContainerItems <= other.maxContainerItems && env.isNfc == other.isNfc
    ensures MembersValid(ms, other)
    decreases ms, 0
  {
    if ms != [] {
      ValidUnderLargerLimit(ms[0].value, env, other);
      MembersUnderLargerLimit(ms[1..], env, other);
    }
  }
}
