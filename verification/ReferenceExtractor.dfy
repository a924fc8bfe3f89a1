/** The extractor as it runs: a collector charged before each reference is kept, and the loops that feed it. */
module ReferenceExtractor {
  import opened Optional
  import opened Text
  import opened Json
  import opened References
  import Oid

  /** Keeps references while both budgets last. */
  class ReferenceCollector {
    var refs: seq<Reference>
    var charged: nat
    var exceeded: Option<Limit>
    const maxEdges: nat
    const maxBytes: nat

    constructor (maxEdges: nat, maxBytes: nat)
      ensures this.maxEdges == maxEdges && this.maxBytes == maxBytes
      ensures Holding([]) == NOTHING
    {
      this.maxEdges, this.maxBytes := maxEdges, maxBytes;
      refs, charged, exceeded := [], 0, None;
    }

    function Limits(): Budget { Budget(maxEdges, maxBytes) }

    /** The collected references together with the malformed parts reported so far. */
    function Holding(bad: seq<Detail>): Gathered
      reads this
    {
      Gathered(refs, charged, exceeded, bad)
    }

    method TryPush(ref: Reference, targetBytes: nat, roleBytes: nat, constraintBytes: nat)
      modifies this
      ensures forall bad ::
                Holding(bad) ==
                  Gather(Limits(), old(Holding(bad)), RefItem(ref, roleBytes, constraintBytes, targetBytes))
    {
      if exceeded.Some? {
        return;
      }
      if |refs| >= maxEdges {
        exceeded := Some(Edges);
        return;
      }
      var next := charged + (targetBytes * 8 + roleBytes * 3 + constraintBytes);
      if next > maxBytes {
        exceeded := Some(ReferenceBytes);
        return;
      }
      refs := refs + [ref];
      charged := next;
    }

    method ExceedReferenceBytes()
      modifies this
      requires exceeded.None?
      ensures forall bad :: Holding(bad) == Gather(Limits(), old(Holding(bad)), PointerTooLong)
    {
      exceeded := Some(ReferenceBytes);
    }
  }

  // ----- Folding one item at a time -----

  lemma GatherNext(b: Budget, g: Gathered, items: seq<Item>, i: nat)
    requires i < |items|
    ensures GatherAll(b, g, items[..i + 1]) == Gather(b, GatherAll(b, g, items[..i]), items[i])
  {
    hide Gather;
    assert items[..i + 1] == items[..i] + [items[i]];
    GatherConcat(b, g, items[..i], [items[i]]);
    assert [items[i]][1..] == [];
  }

  lemma GatherRest(b: Budget, g: Gathered, items: seq<Item>, i: nat)
    requires i <= |items| && GatherAll(b, g, items[..i]).exceeded.Some?
    requires forall k | i <= k < |items| :: items[k].Bad? ==> !items[k].sticky
    ensures GatherAll(b, g, items) == GatherAll(b, g, items[..i])
  {
    hide Gather, GatherAll;
    assert items == items[..i] + items[i..];
    GatherConcat(b, g, items[..i], items[i..]);
    SpentBudgetSkips(b, GatherAll(b, g, items[..i]), items[i..]);
  }

  lemma GatherOne(b: Budget, g: Gathered, item: Item)
    ensures GatherAll(b, g, [item]) == Gather(b, g, item)
  {
    hide Gather;
    assert [item][1..] == [];
  }

  // ----- Commits -----

  method AppendArrayReferences(fields: seq<Member<Value>>, f: ListField, output: ReferenceCollector, bad: seq<Detail>)
    returns (bad': seq<Detail>)
    modifies output
    ensures output.Holding(bad') == GatherAll(output.Limits(), old(output.Holding(bad)), ListItems(fields, f))
  {
    hide Oid.DynamicTargetBytes, GatherAll;
    ghost var g, items := output.Holding(bad), ListItems(fields, f);
    bad' := bad;
    var found := Field(fields, FieldName(f));
    if found.None? || !found.value.Array? {
      bad' := bad' + [MissingArray(FieldName(f))];
      GatherOne(output.Limits(), g, items[0]);
      return;
    }
    var values := found.value.items;
    assert items[..0] == [];
    GatherNone(output.Limits(), g);
    for index := 0 to |values|
      invariant |items| == |values|
      invariant output.Holding(bad') == GatherAll(output.Limits(), g, items[..index])
    {
      if output.exceeded.Some? {
        GatherRest(output.Limits(), g, items, index);
        return;
      }
      GatherNext(output.Limits(), g, items, index);
      assert items[index] == ElementItem(f, values[index], index);
      var value := values[index];
      if !value.Str? {
        bad' := bad' + [NotStringOid(FieldName(f), index)];
        continue;
      }
      output.TryPush(FieldReference(f, value.s, index), Oid.DynamicTargetBytes(value.s), 0, 0);
    }
    assert items[..|values|] == items;
  }

  lemma GatherNone(b: Budget, g: Gathered)
    ensures GatherAll(b, g, []) == g
  {
  }

  method ExtractCommitReferences(body: Option<Value>, output: ReferenceCollector, bad: seq<Detail>)
    returns (bad': seq<Detail>)
    modifies output
    ensures output.Holding(bad') == GatherAll(output.Limits(), old(output.Holding(bad)), CommitItems(body))
  {
    hide GatherAll, ListItems, Oid.DynamicTargetBytes;
    ghost var b, g := output.Limits(), output.Holding(bad);
    bad' := bad;
    if body.None? {
      bad' := bad' + [NoStructuredBody(Oid.Commit)];
      GatherOne(b, g, Bad(NoStructuredBody(Oid.Commit), true));
      return;
    }
    if !body.value.Object? {
      bad' := bad' + [BodyNotObject];
      GatherOne(b, g, Bad(BodyNotObject, true));
      return;
    }
    var fields := body.value.entries;
    bad' := AppendArrayReferences(fields, Parents, output, bad');
    GatherConcat(b, g, ListItems(fields, Parents), SnapshotItems(fields));
    GatherOne(b, output.Holding(bad'), SnapshotItems(fields)[0]);
    var snapshot := AsText(Field(fields, "snapshot"));
    if snapshot.Some? {
      output.TryPush(Reference(snapshot.value, Oid.Tree, CommitSnapshot, None), Oid.DynamicTargetBytes(snapshot.value),
                     0, 0);
    } else {
      bad' := bad' + [MissingSnapshot];
    }
    GatherConcat(b, g, ListItems(fields, Parents) + SnapshotItems(fields), ListItems(fields, Transitions));
    bad' := AppendArrayReferences(fields, Transitions, output, bad');
    GatherConcat(b, g, ListItems(fields, Parents) + SnapshotItems(fields) + ListItems(fields, Transitions),
                 ListItems(fields, Declarations));
    bad' := AppendArrayReferences(fields, Declarations, output, bad');
  }

  // ----- Trees -----

  method ExtractTreeReferences(body: Option<Value>, output: ReferenceCollector, bad: seq<Detail>)
    returns (bad': seq<Detail>)
    modifies output
    ensures output.Holding(bad') == GatherAll(output.Limits(), old(output.Holding(bad)), TreeItems(body))
  {
    hide GatherAll, Oid.DynamicTargetBytes, EntryItem;
    ghost var b, g, items := output.Limits(), output.Holding(bad), TreeItems(body);
    bad' := bad;
    if body.None? {
      bad' := bad' + [NoStructuredBody(Oid.Tree)];
      GatherOne(b, g, items[0]);
      return;
    }
    var found := Get(body.value, "entries");
    if found.None? || !found.value.Object? {
      bad' := bad' + [MissingEntries];
      GatherOne(b, g, items[0]);
      return;
    }
    var entries := found.value.entries;
    assert items[..0] == [];
    GatherNone(b, g);
    for i := 0 to |entries|
      invariant |items| == |entries|
      invariant output.Holding(bad') == GatherAll(b, g, items[..i])
    {
      if output.exceeded.Some? {
        forall k | i <= k < |items| ensures items[k].Bad? ==> !items[k].sticky {
          EntryNotSticky(entries[k]);
        }
        GatherRest(b, g, items, i);
        return;
      }
      GatherNext(b, g, items, i);
      bad' := TakeEntry(entries[i], output, bad');
    }
    assert items[..|entries|] == items;
  }

  lemma EntryNotSticky(m: Member<Value>)
    ensures EntryItem(m).Bad? ==> !EntryItem(m).sticky
  {
    hide Oid.DynamicTargetBytes, Field;
  }

  /** One Tree entry, checked field by field before it is charged. */
  method TakeEntry(m: Member<Value>, output: ReferenceCollector, bad: seq<Detail>) returns (bad': seq<Detail>)
    requires output.exceeded.None?
    modifies output
    ensures output.Holding(bad') == Gather(output.Limits(), old(output.Holding(bad)), EntryItem(m))
  {
    hide Oid.DynamicTargetBytes, Field;
    bad' := bad;
    if !PortableSegment(m.key) {
      bad' := bad' + [UnsafeSegment(m.key)];
      return;
    }
    if !m.value.Object? {
      bad' := bad' + [EntryNotObject(m.key)];
      return;
    }
    var family := AsText(Field(m.value.entries, "entry_kind"));
    if family.None? {
      bad' := bad' + [MissingEntryKind(m.key)];
      return;
    }
    var kind := Oid.KindOf(family.value);
    if kind.None? {
      bad' := bad' + [UnsupportedEntryKind(m.key)];
      return;
    }
    var target := AsText(Field(m.value.entries, "oid"));
    if target.None? {
      bad' := bad' + [MissingEntryOid(m.key)];
      return;
    }
    output.TryPush(Reference(target.value, kind.value, TreeEntry(m.key), None), Oid.DynamicTargetBytes(target.value),
                   ByteLen(m.key), 0);
  }

  // ----- Records -----

  method AppendPointerIndex(pointer: string, index: nat) returns (r: Option<string>)
    ensures var next := pointer + "/" + Decimal(index);
            r == if ByteLen(next) > MAX_GRAPH_REFERENCE_BYTES then None else Some(next)
  {
    var digits := Decimal(index);
    ByteLenConcat(pointer + "/", digits);
    ByteLenConcat(pointer, "/");
    var nextLength := ByteLen(pointer) + ByteLen("/") + ByteLen(digits);
    if nextLength > MAX_GRAPH_REFERENCE_BYTES {
      return None;
    }
    return Some(pointer + "/" + digits);
  }

  /** Appends an escaped key, giving up as soon as the pointer would pass the limit. */
  method AppendPointerKey(pointer: string, key: string) returns (r: Option<string>)
    ensures var next := pointer + "/" + EncodedKey(key);
            r == if ByteLen(next) > MAX_GRAPH_REFERENCE_BYTES then None else Some(next)
  {
    hide ByteLen, EncodedKey, EncodedChar;
    ghost var whole := pointer + "/" + EncodedKey(key);
    ByteLenConcat(pointer, "/");
    ByteLenConcat(pointer + "/", EncodedKey(key));
    if ByteLen(pointer) + ByteLen("/") > MAX_GRAPH_REFERENCE_BYTES {
      return None;
    }
    var built := pointer + "/";
    var i := 0;
    assert key[0..] == key;
    while i < |key|
      invariant i <= |key|
      invariant built + EncodedKey(key[i..]) == whole
      invariant ByteLen(built) <= MAX_GRAPH_REFERENCE_BYTES
    {
      var encoded := EncodedChar(key[i]);
      KeyStep(built, key, i);
      if ByteLen(built) + ByteLen(encoded) > MAX_GRAPH_REFERENCE_BYTES {
        return None;
      }
      built := built + encoded;
      i := i + 1;
    }
    EmptyKey(key, built);
    return Some(built);
  }

  lemma EmptyKey(key: string, built: string)
    ensures built + EncodedKey(key[|key|..]) == built
  {
  }

  lemma KeyStep(built: string, key: string, i: nat)
    requires i < |key|
    ensures var encoded := EncodedChar(key[i]);
            && built + EncodedKey(key[i..]) == (built + encoded) + EncodedKey(key[i + 1..])
            && ByteLen(built + encoded) == ByteLen(built) + ByteLen(encoded)
            && ByteLen(built + EncodedKey(key[i..])) >= ByteLen(built + encoded)
  {
    hide EncodedChar, ByteLen;
    var encoded := EncodedChar(key[i]);
    assert key[i..][1..] == key[i + 1..];
    ByteLenConcat(built, encoded);
    ByteLenConcat(built + encoded, EncodedKey(key[i + 1..]));
  }

  predicate NoneSticky(items: seq<Item>) { forall i | 0 <= i < |items| :: items[i].Bad? ==> !items[i].sticky }

  lemma {:induction false} ValueNotSticky(src: Source, v: Value, pointer: string)
    ensures NoneSticky(ValueItems(src, v, pointer))
    decreases v, 1
  {
    hide Oid.ParseOid, RecordRefItem;
    match v
    case Array(items) => ArrayNotSticky(src, items, 0, pointer);
    case Object(entries) => MembersNotSticky(src, entries, pointer);
    case Str(target) => TextNotSticky(src, target, pointer);
    case _ =>
  }

  lemma TextNotSticky(src: Source, target: string, pointer: string)
    ensures NoneSticky(TextItems(src, target, pointer))
  {
    hide Oid.ParseOid, ConstraintFor;
  }

  lemma {:induction false} ChildNotSticky(src: Source, v: Value, pointer: string)
    ensures NoneSticky(ChildItems(src, v, pointer))
    decreases v, 2
  {
    ValueNotSticky(src, v, pointer);
  }

  lemma {:induction false} ArrayNotSticky(src: Source, items: seq<Value>, index: nat, pointer: string)
    ensures NoneSticky(ArrayItems(src, items, index, pointer))
    decreases items, 0
  {
    hide ChildItems;
    if items != [] {
      ChildNotSticky(src, items[0], pointer + "/" + Decimal(index));
      ArrayNotSticky(src, items[1..], index + 1, pointer);
    }
  }

  lemma {:induction false} MembersNotSticky(src: Source, ms: seq<Member<Value>>, pointer: string)
    ensures NoneSticky(MemberItems(src, ms, pointer))
    decreases ms, 0
  {
    hide ChildItems;
    if ms != [] {
      ChildNotSticky(src, ms[0].value, pointer + "/" + EncodedKey(ms[0].key));
      MembersNotSticky(src, ms[1..], pointer);
    }
  }

  /** One string of a Record: kept when it is an identifier. */
  method TakeText(src: Source, target: string, pointer: string, output: ReferenceCollector, bad: seq<Detail>)
    returns (bad': seq<Detail>)
    requires output.exceeded.None?
    modifies output
    ensures output.Holding(bad') ==
              GatherAll(output.Limits(), old(output.Holding(bad)), TextItems(src, target, pointer))
  {
    hide Oid.ParseOid, ConstraintFor, GatherAll;
    ghost var b, g := output.Limits(), output.Holding(bad);
    bad' := bad;
    GatherNone(b, g);
    var kind := Oid.ParseOid(target);
    if kind.None? {
      return;
    }
    ghost var last := RecordRefItem(src, target, kind.value, pointer);
    if src.recordType == "tombstone" && pointer == "/payload/target_ref" && target == src.oid {
      bad' := bad' + [SelfTombstone];
      GatherOne(b, g, Bad(SelfTombstone, false));
      GatherConcat(b, g, [Bad(SelfTombstone, false)], [last]);
    } else {
      assert [] + [last] == [last];
    }
    GatherOne(b, output.Holding(bad'), last);
    if pointer == "/supersedes" {
      output.TryPush(Reference(target, Oid.Record, RecordSupersedes, Some(Supersedes(src.recordType, src.entityId))),
                     0, 0, ByteLen(src.recordType) + ByteLen(src.entityId));
    } else {
      var c := ConstraintFor(src.recordType, pointer);
      output.TryPush(Reference(target, if c.Some? then Oid.Record else kind.value, RecordReference(pointer), c), 0,
                     ByteLen(pointer), 0);
    }
  }

  method CollectRecordOidStrings(src: Source, v: Value, pointer: string, output: ReferenceCollector, bad: seq<Detail>)
    returns (bad': seq<Detail>)
    modifies output
    ensures output.Holding(bad') == GatherAll(output.Limits(), old(output.Holding(bad)), ValueItems(src, v, pointer))
    decreases v, 1
  {
    hide GatherAll, TextItems, ArrayItems, MemberItems;
    bad' := bad;
    if output.exceeded.Some? {
      ValueNotSticky(src, v, pointer);
      SpentBudgetSkips(output.Limits(), output.Holding(bad), ValueItems(src, v, pointer));
      return;
    }
    GatherNone(output.Limits(), output.Holding(bad));
    match v
    case Str(target) => bad' := TakeText(src, target, pointer, output, bad');
    case Array(items) => bad' := CollectItems(src, items, pointer, output, bad');
    case Object(entries) => bad' := CollectMembers(src, entries, pointer, output, bad');
    case _ =>
  }

  method CollectItems(src: Source, items: seq<Value>, pointer: string, output: ReferenceCollector, bad: seq<Detail>)
    returns (bad': seq<Detail>)
    requires output.exceeded.None?
    modifies output
    ensures output.Holding(bad') ==
              GatherAll(output.Limits(), old(output.Holding(bad)), ArrayItems(src, items, 0, pointer))
    decreases items, 0
  {
    hide GatherAll, ValueItems, Gather;
    ghost var b, all :=
      output.Limits(), GatherAll(output.Limits(), output.Holding(bad), ArrayItems(src, items, 0, pointer));
    bad' := bad;
    var i := 0;
    assert items[0..] == items;
    while i < |items|
      invariant i <= |items| && output.exceeded.None?
      invariant all == GatherAll(b, output.Holding(bad'), ArrayItems(src, items[i..], i, pointer))
    {
      ghost var g, path, rest :=
        output.Holding(bad'), pointer + "/" + Decimal(i), ArrayItems(src, items[i + 1..], i + 1, pointer);
      assert items[i..][1..] == items[i + 1..];
      GatherConcat(b, g, ChildItems(src, items[i], path), rest);
      ArrayNotSticky(src, items[i + 1..], i + 1, pointer);
      var next := AppendPointerIndex(pointer, i);
      if next.None? {
        output.ExceedReferenceBytes();
        GatherOne(b, g, PointerTooLong);
        TooLongExceeds(b, g);
        SpentBudgetSkips(b, output.Holding(bad'), rest);
        return;
      }
      bad' := CollectRecordOidStrings(src, items[i], next.value, output, bad');
      if output.exceeded.Some? {
        SpentBudgetSkips(b, output.Holding(bad'), rest);
        return;
      }
      i := i + 1;
    }
    GatherNone(b, output.Holding(bad'));
  }

  lemma TooLongExceeds(b: Budget, g: Gathered)
    ensures Gather(b, g, PointerTooLong).exceeded.Some?
  {
  }

  method CollectMembers(src: Source, ms: seq<Member<Value>>, pointer: string, output: ReferenceCollector,
                        bad: seq<Detail>)
    returns (bad': seq<Detail>)
    requires output.exceeded.None?
    modifies output
    ensures output.Holding(bad') == GatherAll(output.Limits(), old(output.Holding(bad)), MemberItems(src, ms, pointer))
    decreases ms, 0
  {
    hide GatherAll, ValueItems, Gather;
    ghost var b, all := output.Limits(), GatherAll(output.Limits(), output.Holding(bad), MemberItems(src, ms, pointer));
    bad' := bad;
    var i := 0;
    assert ms[0..] == ms;
    while i < |ms|
      invariant i <= |ms| && output.exceeded.None?
      invariant all == GatherAll(b, output.Holding(bad'), MemberItems(src, ms[i..], pointer))
    {
      ghost var g, path, rest :=
        output.Holding(bad'), pointer + "/" + EncodedKey(ms[i].key), MemberItems(src, ms[i + 1..], pointer);
      assert ms[i..][1..] == ms[i + 1..];
      GatherConcat(b, g, ChildItems(src, ms[i].value, path), rest);
      MembersNotSticky(src, ms[i + 1..], pointer);
      var next := AppendPointerKey(pointer, ms[i].key);
      if next.None? {
        output.ExceedReferenceBytes();
        GatherOne(b, g, PointerTooLong);
        TooLongExceeds(b, g);
        SpentBudgetSkips(b, output.Holding(bad'), rest);
        return;
      }
      bad' := CollectRecordOidStrings(src, ms[i].value, next.value, output, bad');
      if output.exceeded.Some? {
        SpentBudgetSkips(b, output.Holding(bad'), rest);
        return;
      }
      i := i + 1;
    }
    GatherNone(b, output.Holding(bad'));
  }

  /** Everything one object refers to, within what is left of the budgets. */
  method ExtractReferences(oid: string, obj: Stored, maxEdges: nat, maxBytes: nat) returns (g: Gathered)
    ensures g == GatherAll(Budget(maxEdges, maxBytes), NOTHING, Items(oid, obj))
  {
    hide GatherAll, CommitItems, TreeItems, ValueItems;
    var collector := new ReferenceCollector(maxEdges, maxBytes);
    var bad := [];
    GatherNone(collector.Limits(), NOTHING);
    match obj.kind {
      case Blob =>
      case Record =>
        if obj.body.None? {
          bad := [NoStructuredBody(Oid.Record)];
          GatherOne(collector.Limits(), NOTHING, Bad(NoStructuredBody(Oid.Record), true));
        } else {
          bad := CollectRecordOidStrings(SourceOf(oid, obj.body.value), obj.body.value, "", collector, bad);
        }
      case Commit => bad := ExtractCommitReferences(obj.body, collector, bad);
      case Tree => bad := ExtractTreeReferences(obj.body, collector, bad);
    }
    g := Gathered(collector.refs, collector.charged, collector.exceeded, bad);
  }
}
