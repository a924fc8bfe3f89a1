/**
 * Where the identifiers of a Record stand: every place of its body by child indices, and that the
 * extractor lists exactly the places that hold an identifier, each once and in document order.
 */
module RecordPlaces {
  import opened Optional
  import opened Text
  import opened Json
  import opened References
  import Oid

  // ----- Places -----

  function ChildCount(v: Value): nat {
    match v
    case Array(items) => |items|
    case Object(entries) => |entries|
    case _ => 0
  }

  function Child(v: Value, i: nat): (c: Value)
    requires i < ChildCount(v)
    ensures c < v
  {
    match v
    case Array(items) => items[i]
    case Object(entries) => entries[i].value
  }

  /** How a JSON pointer names a child: its index, or its key with `~` and `/` escaped. */
  function Token(v: Value, i: nat): string
    requires i < ChildCount(v)
  {
    match v
    case Array(items) => Decimal(i)
    case Object(entries) => EncodedKey(entries[i].key)
  }

  function NodeAt(v: Value, at: seq<nat>): Option<Value>
    decreases at
  {
    if at == [] then Some(v)
    else if at[0] < ChildCount(v) then NodeAt(Child(v, at[0]), at[1..])
    else None
  }

  function PointerAt(v: Value, at: seq<nat>): string
    decreases at
  {
    if at == [] || at[0] >= ChildCount(v) then ""
    else "/" + Token(v, at[0]) + PointerAt(Child(v, at[0]), at[1..])
  }

  /** An identifier stands there. */
  predicate HoldsOid(v: Value, at: seq<nat>) {
    var n := NodeAt(v, at);
    n.Some? && n.value.Str? && Oid.ParseOid(n.value.s).Some?
  }

  predicate TooLong(pointer: string) { ByteLen(pointer) > MAX_GRAPH_REFERENCE_BYTES }

  /** An identifier stands there, at a pointer within the length limit. */
  predicate Listed(v: Value, at: seq<nat>, pointer: string) {
    HoldsOid(v, at) && !TooLong(pointer + PointerAt(v, at))
  }

  // ----- What stands at a place -----

  /** Fields whose target must be of a certain record type. */
  const TYPED: map<(string, string), Constraint> := map[
    ("observation", "/payload/capture_profile_ref") := RecordType("capture_profile"),
    ("activity", "/payload/ai_run/context_pack_ref") := RecordType("context_pack"),
    ("activity", "/payload/ai_run/delegation_grant_ref") := RecordType("delegation_grant"),
    ("context_pack", "/payload/policy_snapshot_ref") := RecordType("policy"),
    ("context_pack", "/payload/delegation_grant_ref") := RecordType("delegation_grant"),
    ("claim_reaction", "/payload/claim_ref") := RecordType("claim"),
    ("claim", "/payload/ai_run_ref") := AiActivity]

  lemma ConstraintsAreTyped(recordType: string, pointer: string)
    ensures ConstraintFor(recordType, pointer) ==
              if (recordType, pointer) in TYPED then Some(TYPED[(recordType, pointer)]) else None
  {
  }

  /** The reference that an identifier at a pointer stands for, and the bytes it is charged. */
  function ReferenceFor(src: Source, pointer: string, target: string, kind: Kind): Item {
    if pointer == "/supersedes" then
      Ref(Reference(target, Oid.Record, RecordSupersedes, Some(Supersedes(src.recordType, src.entityId))),
          ByteLen(src.recordType) + ByteLen(src.entityId))
    else if (src.recordType, pointer) in TYPED then
      Ref(Reference(target, Oid.Record, RecordReference(pointer), Some(TYPED[(src.recordType, pointer)])),
          3 * ByteLen(pointer))
    else
      Ref(Reference(target, kind, RecordReference(pointer), None), 3 * ByteLen(pointer))
  }

  function ItemAt(src: Source, v: Value, at: seq<nat>, pointer: string): Item
    requires HoldsOid(v, at)
  {
    var target := NodeAt(v, at).value.s;
    ReferenceFor(src, pointer + PointerAt(v, at), target, Oid.ParseOid(target).value)
  }

  // ----- Lists of places -----

  predicate InOrder(ats: seq<seq<nat>>) { forall i, j | 0 <= i < j < |ats| :: Precedes(ats[i], ats[j]) }

  /** Document order: at the first index where they differ the earlier place takes the earlier child. */
  predicate Precedes(a: seq<nat>, b: seq<nat>) {
    exists k | 0 <= k < |a| && k < |b| :: a[..k] == b[..k] && a[k] < b[k]
  }

  /** The references among the events of an extraction. */
  function RefItems(items: seq<Item>): seq<Item> {
    if items == [] then [] else (if items[0].Ref? then [items[0]] else []) + RefItems(items[1..])
  }

  lemma {:induction false} RefItemsConcat(a: seq<Item>, b: seq<Item>)
    ensures RefItems(a + b) == RefItems(a) + RefItems(b)
  {
    if a == [] {
      assert a + b == b;
    } else {
      var head := if a[0].Ref? then [a[0]] else [];
      assert (a + b)[0] == a[0] && (a + b)[1..] == a[1..] + b;
      RefItemsConcat(a[1..], b);
      assert RefItems(a + b) == head + (RefItems(a[1..]) + RefItems(b));
      assert RefItems(a) == head + RefItems(a[1..]);
    }
  }

  /** The places, in order, that the references stand at. */
  ghost predicate Found(src: Source, v: Value, pointer: string, items: seq<Item>, ats: seq<seq<nat>>, from: nat) {
    && InOrder(ats)
    && (forall at :: at in ats <==> Listed(v, at, pointer) && (at != [] ==> at[0] >= from))
    && |RefItems(items)| == |ats|
    && forall i | 0 <= i < |ats| :: HoldsOid(v, ats[i]) && RefItems(items)[i] == ItemAt(src, v, ats[i], pointer)
  }

  // ----- The extraction finds them -----

  lemma ReferenceIsFor(src: Source, target: string, kind: Kind, pointer: string)
    ensures RecordRefItem(src, target, kind, pointer) == ReferenceFor(src, pointer, target, kind)
  {
    hide ConstraintFor;
    ConstraintsAreTyped(src.recordType, pointer);
  }

  lemma OneReference(src: Source, target: string, pointer: string)
    requires Oid.ParseOid(target).Some?
    ensures RefItems(TextItems(src, target, pointer))
         == [ReferenceFor(src, pointer, target, Oid.ParseOid(target).value)]
  {
    hide Oid.ParseOid, ReferenceFor, RecordRefItem;
    var item := ReferenceFor(src, pointer, target, Oid.ParseOid(target).value);
    ReferenceIsFor(src, target, Oid.ParseOid(target).value, pointer);
    assert item.Ref? by { ForIsRef(src, pointer, target, Oid.ParseOid(target).value); }
    assert [item][1..] == [];
    assert [Bad(SelfTombstone, false), item][1..] == [item];
    assert RefItems([item]) == [item];
    assert [] + [item] == [item] && [Bad(SelfTombstone, false)] + [item] == [Bad(SelfTombstone, false), item];
  }

  lemma ForIsRef(src: Source, pointer: string, target: string, kind: Kind)
    ensures ReferenceFor(src, pointer, target, kind).Ref?
  {
  }

  lemma TextFinds(src: Source, target: string, pointer: string) returns (ats: seq<seq<nat>>)
    requires !TooLong(pointer)
    ensures Found(src, Str(target), pointer, TextItems(src, target, pointer), ats, 0)
  {
    hide Oid.ParseOid, ReferenceFor, TooLong;
    var v := Str(target);
    forall at ensures NodeAt(v, at).Some? <==> at == [] {
    }
    if Oid.ParseOid(target).Some? {
      ats := [[]];
      assert pointer + PointerAt(v, []) == pointer;
      OneReference(src, target, pointer);
    } else {
      ats := [];
      assert forall at :: !HoldsOid(v, at);
    }
  }

  function Under(i: nat, ats: seq<seq<nat>>): (r: seq<seq<nat>>)
    ensures |r| == |ats| && forall k | 0 <= k < |ats| :: r[k] == [i] + ats[k]
  {
    seq(|ats|, k requires 0 <= k < |ats| => [i] + ats[k])
  }

  lemma ChildPlace(v: Value, i: nat, at: seq<nat>)
    requires i < ChildCount(v)
    ensures NodeAt(v, [i] + at) == NodeAt(Child(v, i), at)
    ensures PointerAt(v, [i] + at) == "/" + Token(v, i) + PointerAt(Child(v, i), at)
  {
    assert ([i] + at)[1..] == at;
  }

  lemma ChildItem(src: Source, v: Value, i: nat, at: seq<nat>, pointer: string)
    requires i < ChildCount(v) && HoldsOid(Child(v, i), at)
    ensures HoldsOid(v, [i] + at)
    ensures ItemAt(src, v, [i] + at, pointer) == ItemAt(src, Child(v, i), at, pointer + "/" + Token(v, i))
  {
    hide NodeAt, PointerAt, Token, ReferenceFor, Oid.ParseOid;
    ChildPlace(v, i, at);
    assert pointer + ("/" + Token(v, i) + PointerAt(Child(v, i), at))
        == pointer + "/" + Token(v, i) + PointerAt(Child(v, i), at);
  }

  /** Places under one child come before places under later ones. */
  lemma JoinedInOrder(i: nat, first: seq<seq<nat>>, rest: seq<seq<nat>>)
    requires InOrder(first) && InOrder(rest) && forall k | 0 <= k < |rest| :: rest[k] != [] && rest[k][0] > i
    ensures InOrder(Under(i, first) + rest)
  {
    hide Precedes;
    var a := Under(i, first);
    var all := a + rest;
    forall x, y | 0 <= x < y < |all| ensures Precedes(all[x], all[y]) {
      if y < |a| {
        assert Precedes(first[x], first[y]);
        PrecedesUnder(i, first[x], first[y]);
      } else if x >= |a| {
        assert Precedes(rest[x - |a|], rest[y - |a|]);
      } else {
        EarlierChild([i] + first[x], rest[y - |a|]);
      }
    }
  }

  lemma EarlierChild(a: seq<nat>, b: seq<nat>)
    requires a != [] && b != [] && a[0] < b[0]
    ensures Precedes(a, b)
  {
    assert a[..0] == b[..0];
  }

  lemma PrecedesUnder(i: nat, a: seq<nat>, b: seq<nat>)
    requires Precedes(a, b)
    ensures Precedes([i] + a, [i] + b)
  {
    var k :| 0 <= k < |a| && k < |b| && a[..k] == b[..k] && a[k] < b[k];
    var x, y := [i] + a, [i] + b;
    assert x[..k + 1] == [i] + a[..k] && y[..k + 1] == [i] + b[..k] && x[k + 1] < y[k + 1];
  }

  lemma NotHere(v: Value, pointer: string)
    requires !v.Str?
    ensures !Listed(v, [], pointer)
  {
  }

  lemma SamePlace(v: Value, i: nat, at: seq<nat>, pointer: string)
    requires i < ChildCount(v)
    ensures Listed(v, [i] + at, pointer) <==> Listed(Child(v, i), at, pointer + "/" + Token(v, i))
  {
    hide NodeAt, PointerAt, Token, Oid.ParseOid, ByteLen;
    ChildPlace(v, i, at);
    assert pointer + ("/" + Token(v, i) + PointerAt(Child(v, i), at))
        == pointer + "/" + Token(v, i) + PointerAt(Child(v, i), at);
  }

  lemma PlaceJoined(v: Value, i: nat, pointer: string, fats: seq<seq<nat>>, rats: seq<seq<nat>>, at: seq<nat>)
    requires i < ChildCount(v) && !v.Str?
    requires forall p :: p in fats <==> Listed(Child(v, i), p, pointer + "/" + Token(v, i))
    requires forall p :: p in rats <==> Listed(v, p, pointer) && (p != [] ==> p[0] >= i + 1)
    ensures at in Under(i, fats) + rats <==> Listed(v, at, pointer) && (at != [] ==> at[0] >= i)
  {
    hide Listed, Token;
    var a := Under(i, fats);
    NotHere(v, pointer);
    if at != [] && at[0] == i {
      assert at == [i] + at[1..];
      SamePlace(v, i, at[1..], pointer);
      if at[1..] in fats {
        var k :| 0 <= k < |fats| && fats[k] == at[1..];
        assert a[k] == at;
      }
      if at in a {
        var k :| 0 <= k < |a| && a[k] == at;
        assert fats[k] == at[1..];
      }
    }
  }

  /** One child's references, then those of the later children. */
  lemma JoinFound(src: Source, v: Value, i: nat, pointer: string, first: seq<Item>, rest: seq<Item>,
                  fats: seq<seq<nat>>, rats: seq<seq<nat>>)
    requires i < ChildCount(v) && Found(src, Child(v, i), pointer + "/" + Token(v, i), first, fats, 0)
    requires Found(src, v, pointer, rest, rats, i + 1) && !v.Str?
    ensures Found(src, v, pointer, first + rest, Under(i, fats) + rats, i)
  {
    hide NodeAt, PointerAt, Token, ReferenceFor, Oid.ParseOid, RefItems, Precedes, ItemAt, HoldsOid, Listed;
    var a := Under(i, fats);
    var ats := a + rats;
    NotHere(v, pointer);
    forall k | 0 <= k < |rats| ensures rats[k] != [] && rats[k][0] > i {
      assert rats[k] in rats;
    }
    JoinedInOrder(i, fats, rats);
    RefItemsConcat(first, rest);
    forall at ensures at in ats <==> Listed(v, at, pointer) && (at != [] ==> at[0] >= i) {
      PlaceJoined(v, i, pointer, fats, rats, at);
    }
    forall k | 0 <= k < |ats|
      ensures HoldsOid(v, ats[k]) && RefItems(first + rest)[k] == ItemAt(src, v, ats[k], pointer) {
      if k < |a| { ChildItem(src, v, i, fats[k], pointer); } else { assert ats[k] == rats[k - |a|]; }
    }
  }

  lemma NothingFound(src: Source, v: Value, pointer: string, from: nat)
    requires from >= ChildCount(v) && !v.Str?
    ensures Found(src, v, pointer, [], [], from)
  {
  }

  lemma LongerIsTooLong(pointer: string, more: string)
    requires TooLong(pointer)
    ensures TooLong(pointer + more)
  {
    ByteLenConcat(pointer, more);
  }

  lemma TooLongFinds(src: Source, v: Value, pointer: string)
    requires TooLong(pointer)
    ensures Found(src, v, pointer, [PointerTooLong], [], 0)
  {
    hide TooLong;
    forall at ensures !Listed(v, at, pointer) {
      LongerIsTooLong(pointer, PointerAt(v, at));
    }
    assert [PointerTooLong][1..] == [];
  }

  lemma {:induction false} ValueFinds(src: Source, v: Value, pointer: string) returns (ats: seq<seq<nat>>)
    requires !TooLong(pointer)
    ensures Found(src, v, pointer, ValueItems(src, v, pointer), ats, 0)
    decreases v, 1
  {
    hide Found, TextItems, ArrayItems, MemberItems;
    match v
    case Str(target) => ats := TextFinds(src, target, pointer);
    case Array(items) =>
      assert items[0..] == items;
      ats := ArrayFinds(src, v, 0, pointer);
    case Object(entries) =>
      assert entries[0..] == entries;
      ats := MembersFind(src, v, 0, pointer);
    case _ =>
      ats := [];
      NothingFound(src, v, pointer, 0);
  }

  lemma {:induction false} ChildFinds(src: Source, v: Value, pointer: string) returns (ats: seq<seq<nat>>)
    ensures Found(src, v, pointer, ChildItems(src, v, pointer), ats, 0)
    decreases v, 2
  {
    hide Found, ValueItems;
    if TooLong(pointer) {
      ats := [];
      TooLongFinds(src, v, pointer);
    } else {
      ats := ValueFinds(src, v, pointer);
    }
  }

  lemma {:induction false} ArrayFinds(src: Source, v: Value, i: nat, pointer: string) returns (ats: seq<seq<nat>>)
    requires v.Array? && i <= |v.items|
    ensures Found(src, v, pointer, ArrayItems(src, v.items[i..], i, pointer), ats, i)
    decreases v, 0, |v.items| - i
  {
    hide Found, ChildItems;
    if i == |v.items| {
      ats := [];
      NothingFound(src, v, pointer, i);
    } else {
      var next := pointer + "/" + Decimal(i);
      var fats := ChildFinds(src, v.items[i], next);
      var rats := ArrayFinds(src, v, i + 1, pointer);
      assert v.items[i..][1..] == v.items[i + 1..];
      ats := Under(i, fats) + rats;
      JoinFound(src, v, i, pointer, ChildItems(src, v.items[i], next),
                ArrayItems(src, v.items[i + 1..], i + 1, pointer), fats, rats);
    }
  }

  lemma {:induction false} MembersFind(src: Source, v: Value, i: nat, pointer: string) returns (ats: seq<seq<nat>>)
    requires v.Object? && i <= |v.entries|
    ensures Found(src, v, pointer, MemberItems(src, v.entries[i..], pointer), ats, i)
    decreases v, 0, |v.entries| - i
  {
    hide Found, ChildItems;
    if i == |v.entries| {
      ats := [];
      NothingFound(src, v, pointer, i);
    } else {
      var next := pointer + "/" + EncodedKey(v.entries[i].key);
      var fats := ChildFinds(src, v.entries[i].value, next);
      var rats := MembersFind(src, v, i + 1, pointer);
      assert v.entries[i..][1..] == v.entries[i + 1..];
      ats := Under(i, fats) + rats;
      JoinFound(src, v, i, pointer, ChildItems(src, v.entries[i].value, next),
                MemberItems(src, v.entries[i + 1..], pointer), fats, rats);
    }
  }

  // ----- Every event has a place -----

  /** A Tombstone may not name itself as its target. */
  predicate NamesItself(src: Source, pointer: string, target: string) {
    src.recordType == "tombstone" && pointer == "/payload/target_ref" && target == src.oid
  }

  predicate Produces(src: Source, n: Value, pointer: string, item: Item) {
    if TooLong(pointer) then item == PointerTooLong
    else
      && n.Str?
      && Oid.ParseOid(n.s).Some?
      && (|| item == ReferenceFor(src, pointer, n.s, Oid.ParseOid(n.s).value)
          || (item == Bad(SelfTombstone, false) && NamesItself(src, pointer, n.s)))
  }

  predicate ProducedAt(src: Source, v: Value, pointer: string, item: Item, at: seq<nat>) {
    NodeAt(v, at).Some? && Produces(src, NodeAt(v, at).value, pointer + PointerAt(v, at), item)
  }

  ghost predicate Produced(src: Source, v: Value, pointer: string, item: Item, from: nat) {
    exists at :: (at != [] ==> at[0] >= from) && ProducedAt(src, v, pointer, item, at)
  }

  lemma ProducedUnder(src: Source, v: Value, i: nat, pointer: string, item: Item, at: seq<nat>)
    requires i < ChildCount(v)
    ensures ProducedAt(src, v, pointer, item, [i] + at)
            <==> ProducedAt(src, Child(v, i), pointer + "/" + Token(v, i), item, at)
  {
    hide NodeAt, PointerAt, Token, Produces;
    ChildPlace(v, i, at);
    assert pointer + ("/" + Token(v, i) + PointerAt(Child(v, i), at))
        == pointer + "/" + Token(v, i) + PointerAt(Child(v, i), at);
  }

  lemma JoinProduced(src: Source, v: Value, i: nat, pointer: string, item: Item)
    requires i < ChildCount(v) && !v.Str? && !TooLong(pointer)
    ensures Produced(src, v, pointer, item, i)
            <==> || Produced(src, Child(v, i), pointer + "/" + Token(v, i), item, 0)
                 || Produced(src, v, pointer, item, i + 1)
  {
    hide Token, ProducedAt;
    var next := pointer + "/" + Token(v, i);
    NothingProducedHere(src, v, pointer, item);
    if Produced(src, v, pointer, item, i) {
      var at :| (at != [] ==> at[0] >= i) && ProducedAt(src, v, pointer, item, at);
      if at[0] == i {
        assert at == [i] + at[1..];
        ProducedUnder(src, v, i, pointer, item, at[1..]);
      }
    }
    if Produced(src, Child(v, i), next, item, 0) {
      var at :| ProducedAt(src, Child(v, i), next, item, at);
      ProducedUnder(src, v, i, pointer, item, at);
      assert ([i] + at)[0] == i;
    }
  }

  lemma NothingProducedHere(src: Source, v: Value, pointer: string, item: Item)
    requires !v.Str? && !TooLong(pointer)
    ensures !ProducedAt(src, v, pointer, item, [])
  {
    assert pointer + [] == pointer;
  }

  lemma NothingProduced(src: Source, v: Value, pointer: string, item: Item, from: nat)
    requires from >= ChildCount(v) && !v.Str? && !TooLong(pointer)
    ensures !Produced(src, v, pointer, item, from)
  {
    hide Produces;
    NothingProducedHere(src, v, pointer, item);
  }

  lemma TextProduces(src: Source, target: string, pointer: string, item: Item)
    requires !TooLong(pointer)
    ensures item in TextItems(src, target, pointer) <==> Produces(src, Str(target), pointer, item)
  {
    hide Oid.ParseOid, RecordRefItem, ReferenceFor, TooLong;
    if Oid.ParseOid(target).Some? { ReferenceIsFor(src, target, Oid.ParseOid(target).value, pointer); }
  }

  lemma ProducedByText(src: Source, target: string, pointer: string, item: Item)
    requires !TooLong(pointer)
    ensures item in TextItems(src, target, pointer) <==> Produced(src, Str(target), pointer, item, 0)
  {
    hide TextItems, Produces;
    TextProduces(src, target, pointer, item);
    assert pointer + [] == pointer;
    assert ProducedAt(src, Str(target), pointer, item, []) <==> Produces(src, Str(target), pointer, item);
  }

  lemma ProducedByTooLong(src: Source, v: Value, pointer: string, item: Item)
    requires TooLong(pointer)
    ensures Produced(src, v, pointer, item, 0) <==> item == PointerTooLong
  {
    hide TooLong;
    forall at ensures TooLong(pointer + PointerAt(v, at)) {
      LongerIsTooLong(pointer, PointerAt(v, at));
    }
    assert ProducedAt(src, v, pointer, item, []) <==> item == PointerTooLong;
  }

  /** The extraction meets an event exactly when some place of the value produces it. */
  lemma {:induction false} ValueProduces(src: Source, v: Value, pointer: string, item: Item)
    requires !TooLong(pointer)
    ensures item in ValueItems(src, v, pointer) <==> Produced(src, v, pointer, item, 0)
    decreases v, 1
  {
    hide Produced, TooLong, TextItems, ArrayItems, MemberItems;
    match v
    case Str(target) => ProducedByText(src, target, pointer, item);
    case Array(items) =>
      assert items[0..] == items;
      ArrayProduces(src, v, 0, pointer, item);
    case Object(entries) =>
      assert entries[0..] == entries;
      MembersProduce(src, v, 0, pointer, item);
    case _ => NothingProduced(src, v, pointer, item, 0);
  }

  lemma {:induction false} ChildProduces(src: Source, v: Value, pointer: string, item: Item)
    ensures item in ChildItems(src, v, pointer) <==> Produced(src, v, pointer, item, 0)
    decreases v, 2
  {
    hide Produced, ValueItems;
    if TooLong(pointer) {
      ProducedByTooLong(src, v, pointer, item);
    } else {
      ValueProduces(src, v, pointer, item);
    }
  }

  lemma {:induction false} ArrayProduces(src: Source, v: Value, i: nat, pointer: string, item: Item)
    requires v.Array? && i <= |v.items| && !TooLong(pointer)
    ensures item in ArrayItems(src, v.items[i..], i, pointer) <==> Produced(src, v, pointer, item, i)
    decreases v, 0, |v.items| - i
  {
    hide Produced, TooLong, ChildItems;
    if i == |v.items| {
      NothingProduced(src, v, pointer, item, i);
    } else {
      ChildProduces(src, v.items[i], pointer + "/" + Decimal(i), item);
      ArrayProduces(src, v, i + 1, pointer, item);
      assert v.items[i..][1..] == v.items[i + 1..];
      JoinProduced(src, v, i, pointer, item);
    }
  }

  lemma {:induction false} MembersProduce(src: Source, v: Value, i: nat, pointer: string, item: Item)
    requires v.Object? && i <= |v.entries| && !TooLong(pointer)
    ensures item in MemberItems(src, v.entries[i..], pointer) <==> Produced(src, v, pointer, item, i)
    decreases v, 0, |v.entries| - i
  {
    hide Produced, TooLong, ChildItems;
    if i == |v.entries| {
      NothingProduced(src, v, pointer, item, i);
    } else {
      ChildProduces(src, v.entries[i].value, pointer + "/" + EncodedKey(v.entries[i].key), item);
      MembersProduce(src, v, i + 1, pointer, item);
      assert v.entries[i..][1..] == v.entries[i + 1..];
      JoinProduced(src, v, i, pointer, item);
    }
  }
}
