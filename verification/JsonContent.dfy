/** Canonical text identifies content: two values print alike exactly when they differ only in member order. */
module JsonContent {
  import opened Json
  import opened JsonOrder
  import opened JsonRoundTrip

  /** Equal up to the order of object members, at every level. */
  ghost predicate SameContent(v: Value, w: Value)
    decreases v
  {
    match v
    case Array(items) =>
      w.Array? && |items| == |w.items| && forall i | 0 <= i < |items| :: SameContent(items[i], w.items[i])
    case Object(ms) =>
      w.Object? && |ms| == |w.entries| &&
      forall i | 0 <= i < |ms| ::
        exists j | 0 <= j < |w.entries| ::
          ms[i].key == w.entries[j].key && SameContent(ms[i].value, w.entries[j].value)
    case _ => v == w
  }

  lemma {:induction false} ItemValidAt(items: seq<Value>, i: nat, env: Env)
    requires ItemsValid(items, env) && i < |items|
    ensures Valid(items[i], env)
    decreases |items|
  {
    if i > 0 { ItemValidAt(items[1..], i - 1, env); }
  }

  lemma {:induction false} MemberValidAt(ms: seq<Member<Value>>, i: nat, env: Env)
    requires MembersValid(ms, env) && i < |ms|
    ensures Valid(ms[i].value, env)
    decreases |ms|
  {
    if i > 0 { MemberValidAt(ms[1..], i - 1, env); }
  }

  lemma {:induction false} NormalItemAt(items: seq<Value>, i: nat)
    requires i < |items|
    ensures NormalItems(items)[i] == Normal(items[i])
    decreases |items|
  {
    if i > 0 { NormalItemAt(items[1..], i - 1); }
  }

  lemma {:induction false} NormalMemberAt(ms: seq<Member<Value>>, i: nat)
    requires i < |ms|
    ensures NormalMembers(ms)[i] == Member(ms[i].key, Normal(ms[i].value))
    decreases |ms|
  {
    if i > 0 { NormalMemberAt(ms[1..], i - 1); }
  }

  lemma {:induction false} DistinctHaveFullSet<T>(s: seq<Member<T>>)
    requires DistinctKeys(s)
    ensures |set m | m in s| == |s|
  {
    if s != [] {
      DistinctHaveFullSet(s[1..]);
      assert (set m | m in s) == {s[0]} + (set m | m in s[1..]);
      assert s[0] !in s[1..];
    }
  }

  /** Equally long lists with distinct keys, one inside the other, hold the same members. */
  lemma SubsetIsPermutation<T>(a: seq<Member<T>>, b: seq<Member<T>>)
    requires DistinctKeys(a) && DistinctKeys(b) && |a| == |b|
    requires forall i | 0 <= i < |a| :: a[i] in b
    ensures multiset(a) == multiset(b)
  {
    DistinctHaveFullSet(a);
    DistinctHaveFullSet(b);
    var sa, sb := set m | m in a, set m | m in b;
    SubsetOfSameSize(sa, sb);
    forall m ensures multiset(a)[m] == multiset(b)[m] {
      if m in sa {
        var i :| 0 <= i < |a| && a[i] == m;
        var j :| 0 <= j < |b| && b[j] == m;
        SingleCounts(a, i);
        SingleCounts(b, j);
      } else {
        assert m !in multiset(a) && m !in multiset(b);
      }
    }
  }

  lemma SubsetOfSameSize<T>(a: set<T>, b: set<T>)
    requires a <= b && |a| == |b|
    ensures a == b
  {
    assert |b - a| == |b| - |a|;
  }

  lemma {:induction false} SameContentNormalises(v: Value, w: Value, env: Env)
    requires Valid(v, env) && Valid(w, env) && SameContent(v, w)
    ensures Normal(v) == Normal(w)
    decreases v
  {
    hide NormalItems, NormalMembers, SortByKey;
    match v
    case Array(items) =>
      forall i | 0 <= i < |items| ensures NormalItems(items)[i] == NormalItems(w.items)[i] {
        ItemValidAt(items, i, env);
        ItemValidAt(w.items, i, env);
        SameContentNormalises(items[i], w.items[i], env);
        NormalItemAt(items, i);
        NormalItemAt(w.items, i);
      }
    case Object(ms) =>
      var ns, os := NormalMembers(ms), NormalMembers(w.entries);
      forall i | 0 <= i < |ns| ensures ns[i] in os {
        var j :| 0 <= j < |w.entries| && ms[i].key == w.entries[j].key && SameContent(ms[i].value, w.entries[j].value);
        MemberValidAt(ms, i, env);
        MemberValidAt(w.entries, j, env);
        SameContentNormalises(ms[i].value, w.entries[j].value, env);
        NormalMemberAt(ms, i);
        NormalMemberAt(w.entries, j);
        assert ns[i] == os[j];
      }
      PermutationsSortAlike(ns, os);
    case _ =>
  }

  lemma PermutationsSortAlike(a: seq<Member<Value>>, b: seq<Member<Value>>)
    requires DistinctKeys(a) && DistinctKeys(b) && |a| == |b|
    requires forall i | 0 <= i < |a| :: a[i] in b
    ensures SortByKey(a) == SortByKey(b)
  {
    SubsetIsPermutation(a, b);
    SortIsPermutation(a);
    SortIsPermutation(b);
    SortIsSorted(a);
    SortIsSorted(b);
    DistinctUnderPermutation(a, SortByKey(a));
    SortedIsUnique(SortByKey(a), SortByKey(b));
  }

  lemma {:induction false} NormalFormDecides(v: Value, w: Value)
    requires Normal(v) == Normal(w)
    ensures SameContent(v, w)
    decreases v
  {
    hide NormalItems, NormalMembers, SortByKey;
    match v
    case Array(items) =>
      forall i | 0 <= i < |items| ensures SameContent(items[i], w.items[i]) {
        NormalItemAt(items, i);
        NormalItemAt(w.items, i);
        NormalFormDecides(items[i], w.items[i]);
      }
    case Object(ms) =>
      var ns, os := NormalMembers(ms), NormalMembers(w.entries);
      SortIsPermutation(ns);
      SortIsPermutation(os);
      forall i | 0 <= i < |ms|
        ensures exists j | 0 <= j < |w.entries| ::
                  ms[i].key == w.entries[j].key && SameContent(ms[i].value, w.entries[j].value)
      {
        assert ns[i] in multiset(os);
        var j :| 0 <= j < |os| && os[j] == ns[i];
        NormalMemberAt(ms, i);
        NormalMemberAt(w.entries, j);
        NormalFormDecides(ms[i].value, w.entries[j].value);
      }
    case _ =>
  }

  /** Equal canonical text means equal content, and equal content means equal canonical text. */
  lemma CanonicalTextIdentifiesContent(v: Value, w: Value, env: Env)
    requires Valid(v, env) && Valid(w, env)
    ensures Canon(v) == Canon(w) <==> SameContent(v, w)
  {
    if SameContent(v, w) {
      SameContentNormalises(v, w, env);
      NormalKeeps(v, env);
      NormalKeeps(w, env);
    }
    if Canon(v) == Canon(w) {
      var roomy := env.(maxNodes := Nodes(v) + Nodes(w), maxNestingDepth := Nesting(v) + Nesting(w));
      ValidUnderLargerLimit(v, env, roomy);
      ValidUnderLargerLimit(w, env, roomy);
      ValueReadsBack(v, "", 0, 0, roomy);
      ValueReadsBack(w, "", 0, 0, roomy);
      NormalFormDecides(v, w);
    }
  }
}
