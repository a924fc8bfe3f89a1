/**
 * Which references an object holds, said by JSON pointers into its body instead of by the walk that
 * collects them: for Records, Commits and Trees, in both directions.
 */
module ReferenceExact {
  import opened Optional
  import opened Split
  import opened Text
  import opened Json
  import opened References
  import opened RecordPlaces
  import opened RecordPointers
  import Oid

  // ----- Records -----

  /** The place a pointer names produces the event. */
  predicate ProducedBy(oid: string, body: Value, item: Item, pointer: string) {
    Resolve(body, pointer).Some? && Produces(SourceOf(oid, body), Resolve(body, pointer).value, pointer, item)
  }

  /** The events of a Record are exactly what its pointers produce. */
  lemma RecordEventsExactly(oid: string, body: Value, item: Item)
    requires DistinctThroughout(body)
    ensures item in RecordItems(oid, Some(body)) <==> exists p :: ProducedBy(oid, body, item, p)
  {
    hide Resolve, Produces, SourceOf, DistinctThroughout, NodeAt, PointerAt, ValueItems;
    var src := SourceOf(oid, body);
    assert !TooLong("");
    ValueProduces(src, body, "", item);
    if item in RecordItems(oid, Some(body)) {
      var at :| ProducedAt(src, body, "", item, at);
      PlaceResolves(body, at);
      assert "" + PointerAt(body, at) == PointerAt(body, at);
      assert ProducedBy(oid, body, item, PointerAt(body, at));
    }
    if p :| ProducedBy(oid, body, item, p) {
      var at := ResolvedHasPlace(body, p);
      assert "" + PointerAt(body, at) == p;
      assert ProducedAt(src, body, "", item, at);
      assert at != [] ==> at[0] >= 0;
    }
  }

  /** A reference with this role and target is among the events. */
  predicate Lists(items: seq<Item>, role: Role, target: string) {
    exists i | 0 <= i < |items| :: items[i].Ref? && items[i].ref.role == role && items[i].ref.target == target
  }

  predicate HoldsIdentifier(body: Value, pointer: string, target: string) {
    Resolve(body, pointer) == Some(Str(target)) && Oid.ParseOid(target).Some?
  }

  function RoleAt(pointer: string): Role {
    if pointer == "/supersedes" then RecordSupersedes else RecordReference(pointer)
  }

  lemma RoleNamesPointer(src: Source, p: string, q: string, target: string, kind: Kind)
    ensures ReferenceFor(src, p, target, kind).Ref? && ReferenceFor(src, p, target, kind).ref.target == target
    ensures ReferenceFor(src, p, target, kind).ref.role == RoleAt(q) <==> p == q
  {
  }

  /**
   * A Record lists a target under the role of a pointer exactly when that pointer, within the length
   * limit, names that target and the target is an identifier.
   */
  lemma RecordReferenceExactly(oid: string, body: Value, pointer: string, target: string)
    requires DistinctThroughout(body)
    ensures Lists(RecordItems(oid, Some(body)), RoleAt(pointer), target)
            <==> HoldsIdentifier(body, pointer, target) && !TooLong(pointer)
  {
    hide Resolve, SourceOf, ReferenceFor, DistinctThroughout, Oid.ParseOid, RecordItems, TooLong, RoleAt;
    var src, items, role := SourceOf(oid, body), RecordItems(oid, Some(body)), RoleAt(pointer);
    if Lists(items, role, target) {
      var i :| 0 <= i < |items| && items[i].Ref? && items[i].ref.role == role && items[i].ref.target == target;
      RecordEventsExactly(oid, body, items[i]);
      var p :| ProducedBy(oid, body, items[i], p);
      RoleNamesPointer(src, p, pointer, Resolve(body, p).value.s, Oid.ParseOid(Resolve(body, p).value.s).value);
    }
    if HoldsIdentifier(body, pointer, target) && !TooLong(pointer) {
      var item := ReferenceFor(src, pointer, target, Oid.ParseOid(target).value);
      RoleNamesPointer(src, pointer, pointer, target, Oid.ParseOid(target).value);
      RecordEventsExactly(oid, body, item);
      assert ProducedBy(oid, body, item, pointer);
    }
  }

  /** No other role is ever listed by a Record. */
  lemma RecordRolesOnly(oid: string, body: Value, i: nat)
    requires i < |RecordItems(oid, Some(body))| && RecordItems(oid, Some(body))[i].Ref?
    ensures exists p :: RecordItems(oid, Some(body))[i].ref.role == RoleAt(p)
  {
    hide SourceOf, Oid.ParseOid, RecordItems, NodeAt, PointerAt, TooLong, ReferenceFor;
    var src, item := SourceOf(oid, body), RecordItems(oid, Some(body))[i];
    RootIsShort();
    assert item in ValueItems(src, body, "") by { ItemsAreValueItems(oid, body); }
    ValueProduces(src, body, "", item);
    var at :| ProducedAt(src, body, "", item, at);
    var p := "" + PointerAt(body, at);
    var n := NodeAt(body, at).value;
    RoleNamesPointer(src, p, p, n.s, Oid.ParseOid(n.s).value);
  }

  lemma RootIsShort()
    ensures !TooLong("")
  {
  }

  lemma ItemsAreValueItems(oid: string, body: Value)
    ensures RecordItems(oid, Some(body)) == ValueItems(SourceOf(oid, body), body, "")
  {
  }

  lemma {:induction false} RefsAreListed(items: seq<Item>, role: Role, target: string)
    ensures Lists(items, role, target) <==> exists r | r in RefsOf(items) :: r.role == role && r.target == target
  {
    if items != [] {
      var rest := items[1..];
      RefsAreListed(rest, role, target);
      if Lists(items, role, target) {
        var i :| 0 <= i < |items| && items[i].Ref? && items[i].ref.role == role && items[i].ref.target == target;
        if i > 0 {
          assert rest[i - 1] == items[i];
        } else {
          assert items[0].ref in RefsOf(items);
        }
      }
      if r :| r in RefsOf(rest) && r.role == role && r.target == target { assert r in RefsOf(items); }
    }
  }

  lemma {:induction false} TooLongExceeds(b: Budget, g: Gathered, items: seq<Item>)
    requires PointerTooLong in items
    ensures GatherAll(b, g, items).exceeded.Some?
    decreases items
  {
    var next := Gather(b, g, items[0]);
    if items[0] == PointerTooLong {
      ExceededStays(b, next, items[1..]);
    } else {
      TooLongExceeds(b, next, items[1..]);
    }
  }

  /**
   * What an extraction of a Record gathers, when no budget stops it: a target under the role of a
   * pointer exactly when that pointer names that target and the target is an identifier.
   */
  lemma ExtractionFindsExactly(oid: string, body: Value, byteLen: nat, b: Budget, pointer: string, target: string)
    requires DistinctThroughout(body)
    requires GatherAll(b, NOTHING, Items(oid, Stored(Oid.Record, byteLen, Some(body)))).exceeded.None?
    ensures var g := GatherAll(b, NOTHING, Items(oid, Stored(Oid.Record, byteLen, Some(body))));
            (exists r | r in g.refs :: r.role == RoleAt(pointer) && r.target == target)
            <==> HoldsIdentifier(body, pointer, target)
  {
    hide DistinctThroughout, RecordItems, RoleAt, HoldsIdentifier, Lists, GatherAll, RefsOf, TooLong;
    var items := RecordItems(oid, Some(body));
    InBudgetGathersAll(b, NOTHING, items);
    assert [] + RefsOf(items) == RefsOf(items);
    RefsAreListed(items, RoleAt(pointer), target);
    RecordReferenceExactly(oid, body, pointer, target);
    if HoldsIdentifier(body, pointer, target) && TooLong(pointer) {
      LongPointerIsMet(oid, body, pointer, target);
      TooLongExceeds(b, NOTHING, items);
    }
  }

  lemma LongPointerIsMet(oid: string, body: Value, pointer: string, target: string)
    requires DistinctThroughout(body) && HoldsIdentifier(body, pointer, target) && TooLong(pointer)
    ensures PointerTooLong in RecordItems(oid, Some(body))
  {
    hide DistinctThroughout, RecordItems, TooLong, SourceOf, Resolve;
    RecordEventsExactly(oid, body, PointerTooLong);
    assert ProducedBy(oid, body, PointerTooLong, pointer);
  }

  // ----- What is read of a Record -----

  /** The text a pointer names, if it names one. */
  function TextAt(v: Value, pointer: string): Option<string> { AsText(Resolve(v, pointer)) }

  /** A key that stands for itself in a pointer and is no array index. */
  predicate PlainName(name: string) { name != "" && '/' !in name && '~' !in name && !('0' <= name[0] <= '9') }

  lemma NamedIsGet(v: Value, name: string)
    requires PlainName(name)
    ensures Named(v, name) == Get(v, name)
  {
    hide Unescaped;
    PlainKey(name);
  }

  lemma GetIsResolve(v: Value, name: string, pointer: string)
    requires PlainName(name) && pointer == "/" + name
    ensures Get(v, name) == Resolve(v, pointer)
  {
    hide Named, Get;
    FirstPart(name, '/', "");
    NamedIsGet(v, name);
    assert pointer[1..] == name && [name][1..] == [];
    assert Follow(v, [name]) == Named(v, name);
  }

  lemma GetTwice(v: Value, name: string, inner: string, pointer: string)
    requires PlainName(name) && PlainName(inner) && pointer == "/" + name + "/" + inner
    ensures (if Get(v, name).Some? then Get(Get(v, name).value, inner) else None) == Resolve(v, pointer)
  {
    hide Named, Get;
    FirstPart(name, '/', inner);
    FirstPart(inner, '/', "");
    NamedIsGet(v, name);
    var tokens := [name] + [inner];
    assert pointer[1..] == name + "/" + inner && tokens[1..] == [inner] && [inner][1..] == [];
    if Get(v, name).Some? {
      var next := Get(v, name).value;
      NamedIsGet(next, inner);
      assert Follow(v, tokens) == Follow(next, [inner]) == Named(next, inner);
    }
  }

  lemma SourceReads(oid: string, body: Value)
    ensures SourceOf(oid, body)
         == Source(oid, TextOr(TextAt(body, "/record_type"), ""), TextOr(TextAt(body, "/entity_id"), ""))
  {
    hide Get, Resolve, PlainName;
    RecordNames();
    GetIsResolve(body, "record_type", "/record_type");
    GetIsResolve(body, "entity_id", "/entity_id");
  }

  lemma SemanticsRead(body: Value)
    ensures SemanticsOf(body)
         == Semantics(TextAt(body, "/record_type"), TextAt(body, "/entity_id"), TextAt(body, "/payload/activity_kind"))
  {
    hide Get, Resolve, PlainName;
    RecordNames();
    GetIsResolve(body, "record_type", "/record_type");
    GetIsResolve(body, "entity_id", "/entity_id");
    ActivityKindRead(body);
  }

  lemma RecordNames()
    ensures PlainName("record_type") && PlainName("entity_id")
    ensures "/" + "record_type" == "/record_type" && "/" + "entity_id" == "/entity_id"
  {
  }

  lemma ActivityKindRead(body: Value)
    ensures (if Get(body, "payload").Some? then Get(Get(body, "payload").value, "activity_kind") else None)
         == Resolve(body, "/payload/activity_kind")
  {
    hide Get, Resolve;
    GetTwice(body, "payload", "activity_kind", "/payload/activity_kind");
  }

  // ----- Commits -----

  /** The i-th element of a list field. */
  function ElementAt(body: Value, name: string, i: nat): Option<Value> {
    match Resolve(body, "/" + name)
    case Some(Array(values)) => if i < |values| then Some(values[i]) else None
    case _ => None
  }

  /** The reference that a Commit's body calls for under a role. */
  predicate CommitCallsFor(body: Value, r: Reference) {
    && r.constraint.None?
    && match r.role
       case CommitParent(i) => r.expectedKind == Oid.Commit && ElementAt(body, "parents", i) == Some(Str(r.target))
       case CommitSnapshot => r.expectedKind == Oid.Tree && Resolve(body, "/snapshot") == Some(Str(r.target))
       case CommitTransition(i) =>
         r.expectedKind == Oid.Record && ElementAt(body, "transition_refs", i) == Some(Str(r.target))
       case CommitBoundDeclaration(i) =>
         r.expectedKind == Oid.Record && ElementAt(body, "bound_declaration_refs", i) == Some(Str(r.target))
       case _ => false
  }

  predicate CommitFault(body: Value, detail: Detail, sticky: bool) {
    match detail
    case MissingArray(f) => sticky && f in LISTS && !IsArray(Resolve(body, "/" + f))
    case NotStringOid(f, i) => !sticky && f in LISTS && ElementAt(body, f, i).Some? && !ElementAt(body, f, i).value.Str?
    case MissingSnapshot => sticky && TextAt(body, "/snapshot").None?
    case _ => false
  }

  const LISTS := {"parents", "transition_refs", "bound_declaration_refs"}

  predicate IsArray(v: Option<Value>) { v.Some? && v.value.Array? }

  predicate CommitEvent(body: Value, item: Item) {
    match item
    case Ref(r, cost) => CommitCallsFor(body, r) && cost == 8 * Oid.DynamicTargetBytes(r.target)
    case Bad(detail, sticky) => CommitFault(body, detail, sticky)
    case PointerTooLong => false
  }

  predicate ListEvent(body: Value, f: ListField, item: Item) {
    var found := Resolve(body, "/" + FieldName(f));
    if !IsArray(found) then item == Bad(MissingArray(FieldName(f)), true)
    else exists i | 0 <= i < |found.value.items| :: item == ElementItem(f, found.value.items[i], i)
  }

  lemma ListEventsExactly(body: Value, f: ListField, item: Item)
    requires body.Object?
    ensures item in ListItems(body.entries, f) <==> ListEvent(body, f, item)
  {
    hide Field, Resolve, ElementItem, FieldName;
    FieldNameIsPlain(f);
    GetIsResolve(body, FieldName(f), "/" + FieldName(f));
    var found, items := Resolve(body, "/" + FieldName(f)), ListItems(body.entries, f);
    if IsArray(found) {
      var values := found.value.items;
      assert |items| == |values| && forall i | 0 <= i < |values| :: items[i] == ElementItem(f, values[i], i);
    }
  }

  lemma FieldNameIsPlain(f: ListField)
    ensures PlainName(FieldName(f))
  {
    match f
    case Parents => assert PlainName("parents");
    case Transitions => assert PlainName("transition_refs");
    case Declarations => assert PlainName("bound_declaration_refs");
  }

  lemma ListEventOf(body: Value, f: ListField, item: Item)
    requires ListEvent(body, f, item)
    ensures CommitEvent(body, item)
  {
    hide Resolve, Oid.DynamicTargetBytes, FieldName;
    var found := Resolve(body, "/" + FieldName(f));
    ListedNames(f);
    if IsArray(found) {
      var i :| 0 <= i < |found.value.items| && item == ElementItem(f, found.value.items[i], i);
      assert ElementAt(body, FieldName(f), i) == Some(found.value.items[i]);
    }
  }

  lemma ListedNames(f: ListField)
    ensures FieldName(f) in LISTS
    ensures FieldName(f) == (match f case Parents => "parents" case Transitions => "transition_refs"
                                     case Declarations => "bound_declaration_refs")
  {
  }

  lemma CommitEventFrom(body: Value, item: Item)
    requires CommitEvent(body, item)
    ensures ListEvent(body, Parents, item) || ListEvent(body, Transitions, item) || ListEvent(body, Declarations, item)
            || SnapshotEvent(body, item)
  {
    hide Resolve, Oid.DynamicTargetBytes;
    match item
    case Ref(r, cost) =>
      match r.role {
        case CommitParent(i) => assert item == ElementItem(Parents, ElementAt(body, "parents", i).value, i);
        case CommitTransition(i) =>
          assert item == ElementItem(Transitions, ElementAt(body, "transition_refs", i).value, i);
        case CommitBoundDeclaration(i) =>
          assert item == ElementItem(Declarations, ElementAt(body, "bound_declaration_refs", i).value, i);
        case _ =>
      }
    case Bad(detail, sticky) => FaultFrom(body, detail, sticky);
    case _ =>
  }

  lemma FaultFrom(body: Value, detail: Detail, sticky: bool)
    requires CommitFault(body, detail, sticky)
    ensures var item := Bad(detail, sticky);
            || ListEvent(body, Parents, item) || ListEvent(body, Transitions, item)
            || ListEvent(body, Declarations, item) || SnapshotEvent(body, item)
  {
    hide Resolve;
    if detail.NotStringOid? {
      var f := if detail.field == "parents" then Parents else if detail.field == "transition_refs" then Transitions
               else Declarations;
      assert FieldName(f) == detail.field;
      assert Bad(detail, sticky) == ElementItem(f, ElementAt(body, detail.field, detail.index).value, detail.index);
    }
  }

  predicate SnapshotEvent(body: Value, item: Item) {
    match TextAt(body, "/snapshot")
    case Some(target) =>
      item == Ref(Reference(target, Oid.Tree, CommitSnapshot, None), 8 * Oid.DynamicTargetBytes(target))
    case None => item == Bad(MissingSnapshot, true)
  }

  lemma SnapshotEventExactly(body: Value, item: Item)
    requires body.Object?
    ensures item in SnapshotItems(body.entries) <==> SnapshotEvent(body, item)
  {
    hide Field, Resolve, Oid.DynamicTargetBytes;
    GetIsResolve(body, "snapshot", "/snapshot");
  }

  lemma SnapshotEventOf(body: Value, item: Item)
    requires SnapshotEvent(body, item)
    ensures CommitEvent(body, item)
  {
    hide Resolve, Oid.DynamicTargetBytes;
  }

  /** The events of a Commit are exactly the references its fields call for and its missing parts. */
  lemma CommitEventsExactly(body: Value, item: Item)
    requires body.Object?
    ensures item in CommitItems(Some(body)) <==> CommitEvent(body, item)
  {
    hide ListItems, SnapshotItems, CommitEvent, ListEvent, SnapshotEvent;
    ListEventsExactly(body, Parents, item);
    ListEventsExactly(body, Transitions, item);
    ListEventsExactly(body, Declarations, item);
    SnapshotEventExactly(body, item);
    if CommitEvent(body, item) { CommitEventFrom(body, item); }
    if ListEvent(body, Parents, item) { ListEventOf(body, Parents, item); }
    if ListEvent(body, Transitions, item) { ListEventOf(body, Transitions, item); }
    if ListEvent(body, Declarations, item) { ListEventOf(body, Declarations, item); }
    if SnapshotEvent(body, item) { SnapshotEventOf(body, item); }
  }

  /** The place of a role among a Commit's references. */
  function Place(role: Role): (nat, nat) {
    match role
    case CommitParent(i) => (0, i)
    case CommitSnapshot => (1, 0)
    case CommitTransition(i) => (2, i)
    case CommitBoundDeclaration(i) => (3, i)
    case _ => (4, 0)
  }

  predicate PlaceBefore(a: Role, b: Role) {
    Place(a).0 < Place(b).0 || (Place(a).0 == Place(b).0 && Place(a).1 < Place(b).1)
  }

  predicate Placed(items: seq<Item>, group: nat) {
    forall k | 0 <= k < |items| :: items[k].Ref? ==> Place(items[k].ref.role) == (group, k)
  }

  lemma ListIsPlaced(fields: seq<Member<Value>>, f: ListField)
    ensures Placed(ListItems(fields, f), match f case Parents => 0 case Transitions => 2 case Declarations => 3)
  {
    hide Field, Oid.DynamicTargetBytes, FieldName;
  }

  /** A Commit's references come in order, parents, snapshot, transitions, declarations, and no role twice. */
  lemma CommitRolesAscend(body: Value, i: nat, j: nat)
    requires body.Object? && i < j < |CommitItems(Some(body))|
    requires CommitItems(Some(body))[i].Ref? && CommitItems(Some(body))[j].Ref?
    ensures PlaceBefore(CommitItems(Some(body))[i].ref.role, CommitItems(Some(body))[j].ref.role)
  {
    hide ListItems, SnapshotItems, Place;
    var fields := body.entries;
    ListIsPlaced(fields, Parents);
    ListIsPlaced(fields, Transitions);
    ListIsPlaced(fields, Declarations);
    SnapshotIsPlaced(fields);
    var a, b, c, d := ListItems(fields, Parents), SnapshotItems(fields), ListItems(fields, Transitions),
                      ListItems(fields, Declarations);
    Ascends(a, b, c, d, i, j);
  }

  lemma SnapshotIsPlaced(fields: seq<Member<Value>>)
    ensures Placed(SnapshotItems(fields), 1)
  {
    hide Field, Oid.DynamicTargetBytes;
  }

  lemma Ascends(a: seq<Item>, b: seq<Item>, c: seq<Item>, d: seq<Item>, i: nat, j: nat)
    requires Placed(a, 0) && Placed(b, 1) && Placed(c, 2) && Placed(d, 3)
    requires i < j < |a + b + c + d| && (a + b + c + d)[i].Ref? && (a + b + c + d)[j].Ref?
    ensures PlaceBefore((a + b + c + d)[i].ref.role, (a + b + c + d)[j].ref.role)
  {
    hide Place;
    PlacedAt(a, b, c, d, i);
    PlacedAt(a, b, c, d, j);
  }

  lemma PlacedAt(a: seq<Item>, b: seq<Item>, c: seq<Item>, d: seq<Item>, i: nat)
    requires Placed(a, 0) && Placed(b, 1) && Placed(c, 2) && Placed(d, 3)
    requires i < |a + b + c + d| && (a + b + c + d)[i].Ref?
    ensures Place((a + b + c + d)[i].ref.role) ==
            if i < |a| then (0, i) else if i < |a| + |b| then (1, i - |a|)
            else if i < |a| + |b| + |c| then (2, i - |a| - |b|) else (3, i - |a| - |b| - |c|)
  {
    hide Place;
  }

  // ----- Trees -----

  /** An entry whose target and kind can be read. */
  predicate EntryNames(entry: Value, kind: Kind, target: string) {
    entry.Object? && TextAt(entry, "/entry_kind") == Some(Oid.Prefix(kind)) && TextAt(entry, "/oid") == Some(target)
  }

  lemma KindIsPrefix(family: string, kind: Kind)
    ensures Oid.KindOf(family) == Some(kind) <==> family == Oid.Prefix(kind)
  {
  }

  lemma EntryIs(m: Member<Value>, item: Item)
    ensures item.Ref? ==>
              (item == EntryItem(m)
               <==> && PortableSegment(m.key) && EntryNames(m.value, item.ref.expectedKind, item.ref.target)
                    && item.ref.role == TreeEntry(m.key) && item.ref.constraint.None?
                    && item.cost == 8 * Oid.DynamicTargetBytes(item.ref.target) + 3 * ByteLen(m.key))
  {
    hide Field, Resolve, Oid.DynamicTargetBytes, ByteLen, Oid.KindOf, Oid.Prefix, PortableSegment;
    if item.Ref? && m.value.Object? {
      GetIsResolve(m.value, "entry_kind", "/entry_kind");
      GetIsResolve(m.value, "oid", "/oid");
      var family := AsText(Field(m.value.entries, "entry_kind"));
      if family.Some? {
        KindIsPrefix(family.value, item.ref.expectedKind);
      }
    }
  }

  lemma EntryIsWhole(m: Member<Value>)
    ensures EntryItem(m).Ref? <==> PortableSegment(m.key) && exists kind, target :: EntryNames(m.value, kind, target)
  {
    hide EntryNames, Oid.DynamicTargetBytes, ByteLen, PortableSegment, Field, Oid.KindOf;
    EntryIs(m, EntryItem(m));
    if PortableSegment(m.key) {
      if kind, target :| EntryNames(m.value, kind, target) {
        EntryIs(m, Ref(Reference(target, kind, TreeEntry(m.key), None),
                       8 * Oid.DynamicTargetBytes(target) + 3 * ByteLen(m.key)));
      }
    }
  }

  predicate TreeCallsFor(entries: seq<Member<Value>>, r: Reference, cost: nat, i: nat)
    requires i < |entries|
  {
    && PortableSegment(entries[i].key)
    && EntryNames(entries[i].value, r.expectedKind, r.target)
    && r.role == TreeEntry(entries[i].key)
    && r.constraint.None?
    && cost == 8 * Oid.DynamicTargetBytes(r.target) + 3 * ByteLen(entries[i].key)
  }

  /** A Tree has one event per entry, in order: its reference when the entry is whole, a fault otherwise. */
  lemma TreeEventsExactly(body: Value, i: nat, r: Reference, cost: nat)
    requires Resolve(body, "/entries").Some? && Resolve(body, "/entries").value.Object?
    ensures var entries, items := Resolve(body, "/entries").value.entries, TreeItems(Some(body));
            && |items| == |entries|
            && (i < |entries| ==> (items[i] == Ref(r, cost) <==> TreeCallsFor(entries, r, cost, i)))
            && (i < |entries| ==>
                  (items[i].Ref? <==> PortableSegment(entries[i].key)
                                      && exists kind, target :: EntryNames(entries[i].value, kind, target)))
  {
    hide EntryItem, EntryNames, Resolve, PortableSegment, Oid.DynamicTargetBytes, ByteLen, Get;
    GetIsResolve(body, "entries", "/entries");
    var entries := Resolve(body, "/entries").value.entries;
    if i < |entries| {
      EntryIs(entries[i], Ref(r, cost));
      EntryIsWhole(entries[i]);
    }
  }
}
