/**
 * The references held by one stored object, in the order the extractor meets them, and what a
 * work budget lets through of them.
 */
module References {
  import opened Optional
  import opened Text
  import opened Json
  import Oid
  type Kind = Oid.Kind

  const MAX_GRAPH_REFERENCE_BYTES := 64 * 1024 * 1024

  datatype Role =
    | CommitParent(index: nat)
    | CommitSnapshot
    | CommitTransition(index: nat)
    | CommitBoundDeclaration(index: nat)
    | TreeEntry(segment: string)
    | RecordReference(pointer: string)
    | RecordSupersedes

  datatype Constraint =
    | RecordType(expected: string)
    | AiActivity
    | Supersedes(recordType: string, entityId: string)

  datatype Reference = Reference(target: string, expectedKind: Kind, role: Role, constraint: Option<Constraint>)

  datatype Detail =
    | NoStructuredBody(kind: Kind) | BodyNotObject | MissingArray(field: string)
    | NotStringOid(field: string, index: nat)
    | MissingSnapshot | SelfTombstone
    | MissingEntries | UnsafeSegment(segment: string) | EntryNotObject(segment: string)
    | UnsupportedEntryKind(segment: string) | MissingEntryKind(segment: string) | MissingEntryOid(segment: string)

  /** A verified object: its kind, its stored length and, unless it is a Blob, its parsed body. */
  datatype Stored = Stored(kind: Kind, byteLen: nat, body: Option<Value>)

  // ----- Fields -----

  function Field(fields: seq<Member<Value>>, name: string): Option<Value> {
    if fields == [] then None
    else if fields[0].key == name then Some(fields[0].value)
    else Field(fields[1..], name)
  }

  function Get(v: Value, name: string): Option<Value> {
    if v.Object? then Field(v.entries, name) else None
  }

  function AsText(v: Option<Value>): Option<string> {
    if v.Some? && v.value.Str? then Some(v.value.s) else None
  }

  function TextOr(v: Option<string>, fallback: string): string { if v.Some? then v.value else fallback }

  // ----- What the extractor meets -----

  /**
   * One event of an extraction: a reference with the bytes it is charged, a malformed part, or a
   * pointer past the length limit. A sticky malformed part is reported even once a budget is spent.
   */
  datatype Item = Ref(ref: Reference, cost: nat) | Bad(detail: Detail, sticky: bool) | PointerTooLong

  function RefItem(ref: Reference, roleBytes: nat, constraintBytes: nat, targetBytes: nat): Item {
    Ref(ref, targetBytes * 8 + roleBytes * 3 + constraintBytes)
  }

  function Items(oid: string, obj: Stored): seq<Item> {
    match obj.kind
    case Blob => []
    case Record => RecordItems(oid, obj.body)
    case Commit => CommitItems(obj.body)
    case Tree => TreeItems(obj.body)
  }

  datatype ListField = Parents | Transitions | Declarations

  function FieldName(f: ListField): string {
    match f
    case Parents => "parents"
    case Transitions => "transition_refs"
    case Declarations => "bound_declaration_refs"
  }

  function FieldReference(f: ListField, target: string, index: nat): Reference {
    match f
    case Parents => Reference(target, Oid.Commit, CommitParent(index), None)
    case Transitions => Reference(target, Oid.Record, CommitTransition(index), None)
    case Declarations => Reference(target, Oid.Record, CommitBoundDeclaration(index), None)
  }

  function CommitItems(body: Option<Value>): seq<Item> {
    if body.None? then [Bad(NoStructuredBody(Oid.Commit), true)]
    else if !body.value.Object? then [Bad(BodyNotObject, true)]
    else
      var fields := body.value.entries;
      ListItems(fields, Parents) + SnapshotItems(fields) + ListItems(fields, Transitions)
      + ListItems(fields, Declarations)
  }

  function SnapshotItems(fields: seq<Member<Value>>): seq<Item> {
    match AsText(Field(fields, "snapshot"))
    case Some(target) =>
      [RefItem(Reference(target, Oid.Tree, CommitSnapshot, None), 0, 0, Oid.DynamicTargetBytes(target))]
    case None => [Bad(MissingSnapshot, true)]
  }

  function ListItems(fields: seq<Member<Value>>, f: ListField): seq<Item> {
    match Field(fields, FieldName(f))
    case Some(Array(values)) => seq(|values|, i requires 0 <= i < |values| => ElementItem(f, values[i], i))
    case _ => [Bad(MissingArray(FieldName(f)), true)]
  }

  function ElementItem(f: ListField, v: Value, index: nat): Item {
    if v.Str? then RefItem(FieldReference(f, v.s, index), 0, 0, Oid.DynamicTargetBytes(v.s))
    else Bad(NotStringOid(FieldName(f), index), false)
  }

  predicate PortableSegment(s: string) { s != "" && s != "." && s != ".." && '/' !in s && '\0' !in s }

  function TreeItems(body: Option<Value>): seq<Item> {
    if body.None? then [Bad(NoStructuredBody(Oid.Tree), true)]
    else
      match Get(body.value, "entries")
      case Some(Object(entries)) => seq(|entries|, i requires 0 <= i < |entries| => EntryItem(entries[i]))
      case _ => [Bad(MissingEntries, true)]
  }

  function EntryItem(m: Member<Value>): Item {
    if !PortableSegment(m.key) then Bad(UnsafeSegment(m.key), false)
    else if !m.value.Object? then Bad(EntryNotObject(m.key), false)
    else
      match AsText(Field(m.value.entries, "entry_kind"))
      case None => Bad(MissingEntryKind(m.key), false)
      case Some(family) =>
        match Oid.KindOf(family)
        case None => Bad(UnsupportedEntryKind(m.key), false)
        case Some(kind) =>
          match AsText(Field(m.value.entries, "oid"))
          case None => Bad(MissingEntryOid(m.key), false)
          case Some(target) =>
            RefItem(Reference(target, kind, TreeEntry(m.key), None), ByteLen(m.key), 0, Oid.DynamicTargetBytes(target))
  }

  // ----- Records: every OID string, with the JSON pointer it stands at -----

  datatype Source = Source(oid: string, recordType: string, entityId: string)

  function SourceOf(oid: string, body: Value): Source {
    Source(oid, TextOr(AsText(Get(body, "record_type")), ""), TextOr(AsText(Get(body, "entity_id")), ""))
  }

  function RecordItems(oid: string, body: Option<Value>): seq<Item> {
    if body.None? then [Bad(NoStructuredBody(Oid.Record), true)]
    else ValueItems(SourceOf(oid, body.value), body.value, "")
  }

  function ConstraintFor(recordType: string, pointer: string): Option<Constraint> {
    if recordType == "observation" && pointer == "/payload/capture_profile_ref" then Some(RecordType("capture_profile"))
    else if recordType == "activity" && pointer == "/payload/ai_run/context_pack_ref"
    then Some(RecordType("context_pack"))
    else if recordType == "activity" && pointer == "/payload/ai_run/delegation_grant_ref"
    then Some(RecordType("delegation_grant"))
    else if recordType == "context_pack" && pointer == "/payload/policy_snapshot_ref" then Some(RecordType("policy"))
    else if recordType == "context_pack" && pointer == "/payload/delegation_grant_ref"
    then Some(RecordType("delegation_grant"))
    else if recordType == "claim_reaction" && pointer == "/payload/claim_ref" then Some(RecordType("claim"))
    else if recordType == "claim" && pointer == "/payload/ai_run_ref" then Some(AiActivity)
    else None
  }

  /** JSON-pointer escaping of one character. */
  function EncodedChar(c: char): string { if c == '~' then "~0" else if c == '/' then "~1" else [c] }

  function EncodedKey(key: string): string { if key == [] then [] else EncodedChar(key[0]) + EncodedKey(key[1..]) }

  function ValueItems(src: Source, v: Value, pointer: string): seq<Item>
    decreases v, 1
  {
    match v
    case Str(target) => TextItems(src, target, pointer)
    case Array(items) => ArrayItems(src, items, 0, pointer)
    case Object(entries) => MemberItems(src, entries, pointer)
    case _ => []
  }

  function TextItems(src: Source, target: string, pointer: string): seq<Item> {
    match Oid.ParseOid(target)
    case None => []
    case Some(kind) =>
      (if src.recordType == "tombstone" && pointer == "/payload/target_ref" && target == src.oid
       then [Bad(SelfTombstone, false)] else [])
      + [RecordRefItem(src, target, kind, pointer)]
  }

  function RecordRefItem(src: Source, target: string, kind: Kind, pointer: string): Item {
    if pointer == "/supersedes" then
      RefItem(Reference(target, Oid.Record, RecordSupersedes, Some(Supersedes(src.recordType, src.entityId))),
              0, ByteLen(src.recordType) + ByteLen(src.entityId), 0)
    else
      var c := ConstraintFor(src.recordType, pointer);
      RefItem(Reference(target, if c.Some? then Oid.Record else kind, RecordReference(pointer), c), ByteLen(pointer),
              0, 0)
  }

  function ArrayItems(src: Source, items: seq<Value>, index: nat, pointer: string): seq<Item>
    decreases items, 0
  {
    if items == [] then []
    else ChildItems(src, items[0], pointer + "/" + Decimal(index)) + ArrayItems(src, items[1..], index + 1, pointer)
  }

  function MemberItems(src: Source, ms: seq<Member<Value>>, pointer: string): seq<Item>
    decreases ms, 0
  {
    if ms == [] then []
    else ChildItems(src, ms[0].value, pointer + "/" + EncodedKey(ms[0].key)) + MemberItems(src, ms[1..], pointer)
  }

  function ChildItems(src: Source, v: Value, pointer: string): seq<Item>
    decreases v, 2
  {
    if ByteLen(pointer) > MAX_GRAPH_REFERENCE_BYTES then [PointerTooLong] else ValueItems(src, v, pointer)
  }

  // ----- Budget -----

  datatype Limit = Edges | ReferenceBytes

  datatype Budget = Budget(maxEdges: nat, maxBytes: nat)

  /** What an extraction has gathered so far. */
  datatype Gathered = Gathered(refs: seq<Reference>, charged: nat, exceeded: Option<Limit>, bad: seq<Detail>)

  const NOTHING := Gathered([], 0, None, [])

  function Gather(b: Budget, g: Gathered, item: Item): Gathered {
    match item
    case Ref(ref, cost) => Push(b, g, ref, cost)
    case Bad(detail, sticky) => if g.exceeded.Some? && !sticky then g else g.(bad := g.bad + [detail])
    case PointerTooLong => if g.exceeded.Some? then g else g.(exceeded := Some(ReferenceBytes))
  }

  function Push(b: Budget, g: Gathered, ref: Reference, cost: nat): Gathered {
    if g.exceeded.Some? then g
    else if |g.refs| >= b.maxEdges then g.(exceeded := Some(Edges))
    else if g.charged + cost > b.maxBytes then g.(exceeded := Some(ReferenceBytes))
    else g.(refs := g.refs + [ref], charged := g.charged + cost)
  }

  function GatherAll(b: Budget, g: Gathered, items: seq<Item>): Gathered
    decreases items
  {
    if items == [] then g else GatherAll(b, Gather(b, g, items[0]), items[1..])
  }

  lemma {:induction false} GatherConcat(b: Budget, g: Gathered, xs: seq<Item>, ys: seq<Item>)
    ensures GatherAll(b, g, xs + ys) == GatherAll(b, GatherAll(b, g, xs), ys)
    decreases xs
  {
    if xs == [] {
      assert xs + ys == ys;
    } else {
      assert (xs + ys)[1..] == xs[1..] + ys;
      GatherConcat(b, Gather(b, g, xs[0]), xs[1..], ys);
    }
  }

  /** Once a budget is spent, parts that are not sticky are passed over. */
  lemma {:induction false} SpentBudgetSkips(b: Budget, g: Gathered, items: seq<Item>)
    requires g.exceeded.Some? && forall i | 0 <= i < |items| :: items[i].Bad? ==> !items[i].sticky
    ensures GatherAll(b, g, items) == g
  {
    if items != [] { SpentBudgetSkips(b, g, items[1..]); }
  }

  // ----- What was let through -----

  function RefsOf(items: seq<Item>): seq<Reference> {
    if items == [] then [] else (if items[0].Ref? then [items[0].ref] else []) + RefsOf(items[1..])
  }

  function CostOf(items: seq<Item>): nat {
    if items == [] then 0 else (if items[0].Ref? then items[0].cost else 0) + CostOf(items[1..])
  }

  predicate AllRefs(items: seq<Item>) { forall i | 0 <= i < |items| :: items[i].Ref? }

  /** No budget lets more through than it holds. */
  lemma {:induction false} BudgetIsKept(b: Budget, g: Gathered, items: seq<Item>)
    requires |g.refs| <= b.maxEdges && g.charged <= b.maxBytes
    ensures |GatherAll(b, g, items).refs| <= b.maxEdges && GatherAll(b, g, items).charged <= b.maxBytes
    decreases items
  {
    if items != [] { BudgetIsKept(b, Gather(b, g, items[0]), items[1..]); }
  }

  lemma {:induction false} ExceededStays(b: Budget, g: Gathered, items: seq<Item>)
    ensures g.exceeded.Some? ==> GatherAll(b, g, items).exceeded.Some?
    ensures |g.bad| <= |GatherAll(b, g, items).bad|
    decreases items
  {
    if items != [] { ExceededStays(b, Gather(b, g, items[0]), items[1..]); }
  }

  /** An extraction that stays in budget has gathered every reference; with nothing malformed, it met nothing else. */
  lemma {:induction false} InBudgetGathersAll(b: Budget, g: Gathered, items: seq<Item>)
    requires GatherAll(b, g, items).exceeded.None?
    ensures GatherAll(b, g, items).refs == g.refs + RefsOf(items)
    ensures GatherAll(b, g, items).charged == g.charged + CostOf(items)
    ensures GatherAll(b, g, items).bad == g.bad ==> AllRefs(items)
    decreases items
  {
    if items != [] {
      var next := Gather(b, g, items[0]);
      ExceededStays(b, next, items[1..]);
      InBudgetGathersAll(b, next, items[1..]);
      assert items == [items[0]] + items[1..];
    }
  }

  /** A larger budget changes nothing for an extraction that already fits. */
  lemma {:induction false} LargerBudgetSame(b: Budget, c: Budget, g: Gathered, items: seq<Item>)
    requires b.maxEdges <= c.maxEdges && b.maxBytes <= c.maxBytes && GatherAll(b, g, items).exceeded.None?
    ensures GatherAll(c, g, items) == GatherAll(b, g, items)
    decreases items
  {
    if items != [] {
      var next := Gather(b, g, items[0]);
      ExceededStays(b, next, items[1..]);
      LargerBudgetSame(b, c, next, items[1..]);
    }
  }

  /** A sufficient budget gathers a well-formed object whole. */
  lemma {:induction false} SufficientBudget(b: Budget, g: Gathered, items: seq<Item>)
    requires AllRefs(items) && g.exceeded.None?
    requires |g.refs| + |items| <= b.maxEdges && g.charged + CostOf(items) <= b.maxBytes
    ensures GatherAll(b, g, items) == g.(refs := g.refs + RefsOf(items), charged := g.charged + CostOf(items))
    decreases items
  {
    if items != [] {
      SufficientBudget(b, Gather(b, g, items[0]), items[1..]);
    }
  }

  // ----- Record semantics -----

  datatype Semantics = Semantics(recordType: Option<string>, entityId: Option<string>, activityKind: Option<string>)

  function SemanticsOf(body: Value): Semantics {
    var payload := Get(body, "payload");
    Semantics(AsText(Get(body, "record_type")), AsText(Get(body, "entity_id")),
              if payload.Some? then AsText(Get(payload.value, "activity_kind")) else None)
  }

  /** Whether a record meets the constraint of a reference to it. */
  predicate Meets(s: Semantics, c: Constraint) {
    var recordType := TextOr(s.recordType, "<missing>");
    match c
    case RecordType(expected) => recordType == expected
    case AiActivity => recordType == "activity" && TextOr(s.activityKind, "<missing>") == "ai_run"
    case Supersedes(wanted, entity) => recordType == wanted && TextOr(s.entityId, "<missing>") == entity
  }
}
