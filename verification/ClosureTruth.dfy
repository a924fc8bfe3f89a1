/** Whatever a report says is so, complete or not: every node, edge and issue, and where it came from. */
module ClosureTruth {
  import opened Optional
  import opened References
  import opened ClosureWalk
  import opened ClosureShape
  import Oid

  // ----- What is so in the store -----

  predicate Held(world: World, x: string) { x in world.store && world.store[x].Verified? }

  function HeldItems(world: World, x: string): seq<Item>
    requires Held(world, x)
  {
    Items(x, world.store[x].content)
  }

  /** The object is held and has this reference. */
  predicate Cites(world: World, x: string, r: Reference) {
    Held(world, x) && CitedIn(HeldItems(world, x), r)
  }

  predicate CitedIn(items: seq<Item>, r: Reference) {
    exists i | 0 <= i < |items| :: items[i].Ref? && items[i].ref == r
  }

  predicate FaultIn(items: seq<Item>, d: Detail) {
    exists i | 0 <= i < |items| :: items[i].Bad? && items[i].detail == d
  }

  /** Where a visit comes from: it is the root's, or a held object refers there, under that role and constraint. */
  predicate Origin(world: World, root: string, oid: string, kind: Kind, from: Option<string>, role: Option<Role>,
                   constraint: Option<Constraint>) {
    && Oid.ParseOid(oid) == Some(kind)
    && if from.None? then role.None? && constraint.None? && oid == root && kind.Commit?
       else role.Some? && Cites(world, from.value, Reference(oid, kind, role.value, constraint))
  }

  predicate VisitTrue(world: World, root: string, v: Visit) {
    && Origin(world, root, v.oid, v.kind, v.referencedBy, v.role, v.constraint)
    && (v.depth == 0 ==> v.oid == root)
  }

  ghost predicate From(world: World, root: string, i: Issue) {
    exists kind, constraint :: Origin(world, root, i.oid, kind, i.referencedBy, i.role, constraint)
  }

  ghost predicate CitesAs(world: World, x: string, target: string, kind: Kind, role: Role) {
    exists c :: Cites(world, x, Reference(target, kind, role, c))
  }

  predicate ReadableRecord(world: World, x: string) {
    Held(world, x) && world.store[x].content.kind.Record? && world.store[x].content.body.Some?
  }

  // ----- What a report says -----

  predicate NodeTrue(world: World, l: Limits, x: string, n: Node) {
    && n.oid == x && n.depth <= l.maxDepth
    && match n.state
       case Present(kind, byteLen) =>
         Held(world, x) && world.store[x].content.kind == kind && world.store[x].content.byteLen == byteLen
       case Tombstoned(kind, t) =>
         x !in world.store && x in world.tombstones && world.tombstones[x] == t && Oid.ParseOid(x) == Some(kind)
       case Missing(kind) => x !in world.store && x !in world.tombstones && Oid.ParseOid(x) == Some(kind)
       case Corrupt(kind, detail) =>
         x in world.store && world.store[x] == Damaged(detail) && Oid.ParseOid(x) == Some(kind)
  }

  ghost predicate EdgeTrue(world: World, e: Edge) { CitesAs(world, e.source, e.target, e.expectedKind, e.role) }

  ghost predicate IssueTrue(world: World, l: Limits, root: string, nodes: nat, edges: nat, i: Issue) {
    match i.problem
    case MissingObject =>
      i.oid !in world.store && (i.oid in world.tombstones ==> i.oid == root) && From(world, root, i)
    case CorruptObject(detail) =>
      i.oid in world.store && world.store[i.oid] == Damaged(detail) && From(world, root, i)
    case TypeMismatch(expected, actual) =>
      && expected != actual
      && (|| (Held(world, i.oid) && world.store[i.oid].content.kind == actual && Oid.ParseOid(i.oid) == Some(expected)
              && From(world, root, i))
          || (i.referencedBy.Some? && i.role.Some? && Oid.ParseOid(i.oid) == Some(actual)
              && CitesAs(world, i.referencedBy.value, i.oid, expected, i.role.value)))
    case SemanticMismatch(constraint, semantics) =>
      && ReadableRecord(world, i.oid) && SemanticsOf(world.store[i.oid].content.body.value) == semantics
      && !Meets(semantics, constraint)
      && i.referencedBy.Some? && i.role.Some? && Oid.ParseOid(i.oid).Some?
      && Cites(world, i.referencedBy.value,
               Reference(i.oid, Oid.ParseOid(i.oid).value, i.role.value, Some(constraint)))
    case InvalidObject(part) =>
      i.referencedBy.None? && i.role.None? && Held(world, i.oid) && FaultIn(HeldItems(world, i.oid), part)
    case InvalidReference(value) =>
      && i.referencedBy.None? && i.role.Some? && Oid.ParseOid(value).None?
      && exists kind :: CitesAs(world, i.oid, value, kind, i.role.value)
    case Cycle(_) => From(world, root, i) && (i.role.Some? ==> !i.role.value.RecordReference?)
    case ResourceLimit(resource, limit) =>
      || (resource == "depth" && limit == l.maxDepth && From(world, root, i))
      || (resource == "objects" && limit == l.maxObjects && nodes >= limit && From(world, root, i))
      || (resource == "edges" && limit == l.maxEdges && edges >= limit && Held(world, i.oid))
      || (resource == "reference_bytes" && limit == MAX_GRAPH_REFERENCE_BYTES && Held(world, i.oid))
  }

  predicate CutShort(issues: seq<Issue>) { exists i | 0 <= i < |issues| :: issues[i].problem.ResourceLimit? }

  // ----- What every step keeps -----

  ghost predicate StackTrue(world: World, root: string, stack: seq<WorkItem>) {
    forall k | 0 <= k < |stack| :: stack[k].Enter? ==> VisitTrue(world, root, stack[k].visit)
  }

  ghost predicate IssuesTrue(world: World, l: Limits, root: string, nodes: nat, edges: nat, issues: seq<Issue>) {
    forall k | 0 <= k < |issues| :: IssueTrue(world, l, root, nodes, edges, issues[k])
  }

  ghost predicate SaysTrue(world: World, l: Limits, w: Walk) {
    && (forall x | x in w.nodes :: NodeTrue(world, l, x, w.nodes[x]))
    && (forall k | 0 <= k < |w.edges| :: EdgeTrue(world, w.edges[k]))
    && (forall x | x in w.semantics ::
          ReadableRecord(world, x) && w.semantics[x] == SemanticsOf(world.store[x].content.body.value))
  }

  ghost predicate Truth(world: World, l: Limits, root: string, w: Walk) {
    && StackTrue(world, root, w.stack)
    && SaysTrue(world, l, w)
    && IssuesTrue(world, l, root, |w.nodes|, |w.edges|, w.issues)
    && (w.truncated <==> CutShort(w.issues))
  }

  lemma MoreIssues(world: World, l: Limits, root: string, nodes: nat, edges: nat, moreNodes: nat, moreEdges: nat,
                   issues: seq<Issue>, more: seq<Issue>)
    requires IssuesTrue(world, l, root, nodes, edges, issues) && nodes <= moreNodes && edges <= moreEdges
    requires IssuesTrue(world, l, root, moreNodes, moreEdges, more)
    ensures IssuesTrue(world, l, root, moreNodes, moreEdges, issues + more)
    ensures CutShort(issues + more) <==> CutShort(issues) || CutShort(more)
  {
    hide From, CitesAs, Cites, Held, Meets, SemanticsOf, Oid.ParseOid, ReadableRecord, FaultIn;
    var all := issues + more;
    forall k | 0 <= k < |all| ensures IssueTrue(world, l, root, moreNodes, moreEdges, all[k]) {
      if k < |issues| {
        assert IssueTrue(world, l, root, nodes, edges, issues[k]);
      } else {
        assert all[k] == more[k - |issues|];
      }
    }
    if k :| 0 <= k < |issues| && issues[k].problem.ResourceLimit? { assert all[k] == issues[k]; }
    if k :| 0 <= k < |more| && more[k].problem.ResourceLimit? { assert all[|issues| + k] == more[k]; }
    if k :| 0 <= k < |all| && all[k].problem.ResourceLimit? {
      if k >= |issues| { assert more[k - |issues|] == all[k]; }
    }
  }

  // ----- What was gathered is there -----

  lemma {:induction false} GatheredIsThere(b: Budget, g: Gathered, items: seq<Item>, all: seq<Item>)
    requires forall i | 0 <= i < |items| :: items[i] in all
    requires (forall r | r in g.refs :: CitedIn(all, r)) && (forall d | d in g.bad :: FaultIn(all, d))
    ensures forall r | r in GatherAll(b, g, items).refs :: CitedIn(all, r)
    ensures forall d | d in GatherAll(b, g, items).bad :: FaultIn(all, d)
    decreases items
  {
    if items != [] {
      var n := Gather(b, g, items[0]);
      assert items[0] in all;
      GatheredIsThere(b, n, items[1..], all);
    }
  }

  lemma {:induction false} SpentEdges(b: Budget, g: Gathered, items: seq<Item>)
    requires g.exceeded == Some(Edges) ==> |g.refs| >= b.maxEdges
    ensures GatherAll(b, g, items).exceeded == Some(Edges) ==> |GatherAll(b, g, items).refs| >= b.maxEdges
    decreases items
  {
    if items != [] { SpentEdges(b, Gather(b, g, items[0]), items[1..]); }
  }

  // ----- Opening -----

  lemma {:induction false} ChildrenTrue(world: World, root: string, v: Visit, refs: seq<Reference>)
    requires forall r | r in refs :: Cites(world, v.oid, r)
    ensures StackTrue(world, root, Reversed(Children(v, refs)))
  {
    hide Cites, Oid.ParseOid;
    if refs != [] {
      var rest := Children(v, refs[1..]);
      ChildrenTrue(world, root, v, refs[1..]);
      if Leads(refs[0]) {
        var c := VisitOf(v, refs[0]);
        var all := [c] + rest;
        assert all[1..] == rest && Children(v, refs) == all;
        assert Reversed(all) == Reversed(rest) + [Enter(c)];
        assert refs[0] == Reference(c.oid, c.kind, c.role.value, c.constraint);
      } else {
        assert [] + rest == rest;
      }
    }
  }

  lemma {:induction false} RefIssuesTrue(world: World, l: Limits, root: string, nodes: nat, edges: nat, source: string,
                                         refs: seq<Reference>)
    requires forall r | r in refs :: Cites(world, source, r)
    ensures IssuesTrue(world, l, root, nodes, edges, RefIssues(source, refs)) && !CutShort(RefIssues(source, refs))
  {
    hide Cites, Oid.ParseOid, IssueTrue;
    if refs != [] {
      RefIssuesTrue(world, l, root, nodes, edges, source, refs[1..]);
      if !Leads(refs[0]) { RefIssueTrue(world, l, root, nodes, edges, source, refs[0]); }
    }
  }

  lemma RefIssueTrue(world: World, l: Limits, root: string, nodes: nat, edges: nat, source: string, r: Reference)
    requires Cites(world, source, r) && !Leads(r)
    ensures IssueTrue(world, l, root, nodes, edges, RefIssue(source, r))
    ensures !RefIssue(source, r).problem.ResourceLimit?
  {
    hide Cites, Oid.ParseOid, From, Held;
    assert r == Reference(r.target, r.expectedKind, r.role, r.constraint);
    assert CitesAs(world, source, r.target, r.expectedKind, r.role);
  }

  lemma BadIssuesTrue(world: World, l: Limits, root: string, nodes: nat, edges: nat, x: string, bad: seq<Detail>)
    requires Held(world, x) && forall d | d in bad :: FaultIn(HeldItems(world, x), d)
    ensures IssuesTrue(world, l, root, nodes, edges, BadIssues(x, bad)) && !CutShort(BadIssues(x, bad))
  {
    hide HeldItems, FaultIn, From;
  }

  lemma EdgesTrue(world: World, x: string, refs: seq<Reference>)
    requires forall r | r in refs :: Cites(world, x, r)
    ensures forall k | 0 <= k < |refs| :: EdgeTrue(world, EdgesOf(x, refs)[k])
  {
    hide Cites;
    forall k | 0 <= k < |refs| ensures EdgeTrue(world, EdgesOf(x, refs)[k]) {
      var r := refs[k];
      assert r in refs && r == Reference(r.target, r.expectedKind, r.role, r.constraint);
    }
  }

  lemma FromVisit(world: World, root: string, v: Visit, p: Problem)
    requires VisitTrue(world, root, v)
    ensures From(world, root, IssueFor(v, p))
  {
    hide Origin;
    assert Origin(world, root, v.oid, v.kind, v.referencedBy, v.role, v.constraint);
  }

  lemma ConstraintIssuesTrue(world: World, l: Limits, root: string, nodes: nat, edges: nat, v: Visit,
                             semantics: map<string, Semantics>)
    requires VisitTrue(world, root, v)
    requires v.oid in semantics ==>
               ReadableRecord(world, v.oid) && semantics[v.oid] == SemanticsOf(world.store[v.oid].content.body.value)
    ensures IssuesTrue(world, l, root, nodes, edges, ConstraintIssues(semantics, v))
    ensures !CutShort(ConstraintIssues(semantics, v))
  {
    hide Cites, Meets, SemanticsOf, From, ReadableRecord, Oid.ParseOid;
  }

  lemma OneIssueTrue(world: World, l: Limits, root: string, nodes: nat, edges: nat, i: Issue)
    requires IssueTrue(world, l, root, nodes, edges, i)
    ensures IssuesTrue(world, l, root, nodes, edges, [i])
    ensures CutShort([i]) <==> i.problem.ResourceLimit?
  {
    hide IssueTrue;
    assert [i][0] == i;
  }

  lemma NoIssues(world: World, l: Limits, root: string, nodes: nat, edges: nat)
    ensures IssuesTrue(world, l, root, nodes, edges, []) && !CutShort([])
  {
  }

  lemma BrokenTrue(world: World, l: Limits, root: string, w: Walk, v: Visit, s: NodeState, p: Problem)
    requires Truth(world, l, root, w) && VisitTrue(world, root, v) && v.oid !in w.nodes
    requires NodeTrue(world, l, v.oid, Node(v.oid, v.depth, s)) && !p.ResourceLimit?
    requires IssueTrue(world, l, root, |w.nodes| + 1, |w.edges|, IssueFor(v, p))
    ensures Truth(world, l, root, WithIssue(WithNode(w, v, s), IssueFor(v, p)))
  {
    hide NodeTrue, VisitTrue, SemanticsOf, IssueTrue, IssuesTrue, StackTrue, CutShort, EdgeTrue, ReadableRecord;
    var n := WithNode(w, v, s);
    assert n.nodes.Keys == w.nodes.Keys + {v.oid} && |n.nodes| == |n.nodes.Keys| && |w.nodes| == |w.nodes.Keys|;
    OneIssueTrue(world, l, root, |n.nodes|, |n.edges|, IssueFor(v, p));
    MoreIssues(world, l, root, |w.nodes|, |w.edges|, |n.nodes|, |n.edges|, w.issues, [IssueFor(v, p)]);
  }

  lemma NodeAdded(world: World, l: Limits, root: string, w: Walk, v: Visit, s: NodeState)
    requires Truth(world, l, root, w) && v.oid !in w.nodes && NodeTrue(world, l, v.oid, Node(v.oid, v.depth, s))
    ensures Truth(world, l, root, WithNode(w, v, s))
  {
    hide NodeTrue, SemanticsOf, IssueTrue, IssuesTrue, StackTrue, CutShort, EdgeTrue, ReadableRecord;
    var n := WithNode(w, v, s);
    assert n.nodes.Keys == w.nodes.Keys + {v.oid} && |n.nodes| == |n.nodes.Keys| && |w.nodes| == |w.nodes.Keys|;
    NoIssues(world, l, root, |n.nodes|, |n.edges|);
    MoreIssues(world, l, root, |w.nodes|, |w.edges|, |n.nodes|, |n.edges|, w.issues, []);
    assert w.issues + [] == w.issues;
  }

  lemma AbsentTrue(world: World, l: Limits, root: string, w: Walk, v: Visit)
    requires Truth(world, l, root, w) && VisitTrue(world, root, v) && v.depth <= l.maxDepth && v.oid !in world.store
    requires v.oid !in w.nodes
    ensures Truth(world, l, root, Absent(world, w, v))
  {
    hide Truth, Cites, SemanticsOf, From, Oid.ParseOid, ReadableRecord, FaultIn, CitesAs;
    FromVisit(world, root, v, MissingObject);
    if v.oid in world.tombstones {
      var s := Tombstoned(v.kind, world.tombstones[v.oid]);
      NodeAdded(world, l, root, w, v, s);
      if v.depth == 0 && v.kind.Commit? { BrokenTrue(world, l, root, w, v, s, MissingObject); }
    } else {
      BrokenTrue(world, l, root, w, v, Missing(v.kind), MissingObject);
    }
  }

  lemma CheckedTrue(world: World, l: Limits, root: string, w: Walk, v: Visit)
    requires Truth(world, l, root, w) && VisitTrue(world, root, v)
    ensures Truth(world, l, root, CheckConstraint(w, v))
  {
    hide NodeTrue, IssueTrue, IssuesTrue, StackTrue, CutShort, EdgeTrue, ReadableRecord, SemanticsOf, VisitTrue,
         ConstraintIssues;
    ConstraintIssuesTrue(world, l, root, |w.nodes|, |w.edges|, v, w.semantics);
    MoreIssues(world, l, root, |w.nodes|, |w.edges|, |w.nodes|, |w.edges|, w.issues, ConstraintIssues(w.semantics, v));
  }

  lemma SemanticsAdded(world: World, l: Limits, root: string, w: Walk, x: string)
    requires Truth(world, l, root, w) && ReadableRecord(world, x)
    ensures Truth(world, l, root,
                  w.(semantics := w.semantics[x := SemanticsOf(world.store[x].content.body.value)]))
  {
    hide NodeTrue, IssuesTrue, StackTrue, CutShort, EdgeTrue, SemanticsOf;
  }

  lemma DescribeTrue(world: World, l: Limits, root: string, w: Walk, v: Visit, obj: Stored)
    requires Truth(world, l, root, w) && VisitTrue(world, root, v) && v.oid !in w.nodes && v.depth <= l.maxDepth
    requires v.oid in world.store && world.store[v.oid] == Verified(obj) && obj.kind == v.kind
    ensures Truth(world, l, root, WithNode(Describe(w, v, obj), v, Present(obj.kind, obj.byteLen)))
  {
    hide Truth, VisitTrue, SemanticsOf, ConstraintIssues;
    if obj.kind.Record? && obj.body.Some? {
      SemanticsAdded(world, l, root, w, v.oid);
      CheckedTrue(world, l, root, w.(semantics := w.semantics[v.oid := SemanticsOf(obj.body.value)]), v);
    }
    NodeAdded(world, l, root, Describe(w, v, obj), v, Present(obj.kind, obj.byteLen));
  }

  lemma CitedAll(world: World, x: string, g: Gathered)
    requires Held(world, x) && forall r | r in g.refs :: CitedIn(HeldItems(world, x), r)
    ensures forall r | r in g.refs :: Cites(world, x, r)
  {
  }

  lemma StackGrows(world: World, root: string, a: seq<WorkItem>, b: seq<WorkItem>)
    requires StackTrue(world, root, a) && StackTrue(world, root, b)
    ensures StackTrue(world, root, a + b)
  {
    hide VisitTrue;
  }

  lemma ExpandTrue(world: World, l: Limits, root: string, w: Walk, v: Visit, obj: Stored)
    requires Truth(world, l, root, w) && v.oid in world.store && world.store[v.oid] == Verified(obj)
    requires |w.edges| <= l.maxEdges
    ensures Truth(world, l, root, Expand(l, w, v, obj))
  {
    hide Items, GatherAll, IssueTrue, IssuesTrue, StackTrue, CutShort, EdgeTrue, NodeTrue, SemanticsOf, ReadableRecord,
         Children, Reversed, RefIssues, BadIssues, CitedIn, FaultIn, Cites, EdgesOf;
    var items := Items(v.oid, obj);
    var g := GatherAll(Remaining(l, w), NOTHING, items);
    var n := Expand(l, w, v, obj);
    GatheredIsThere(Remaining(l, w), NOTHING, items, items);
    SpentEdges(Remaining(l, w), NOTHING, items);
    CitedAll(world, v.oid, g);
    EdgesTrue(world, v.oid, g.refs);
    assert |n.edges| == |w.edges| + |g.refs|;
    BadIssuesTrue(world, l, root, |n.nodes|, |n.edges|, v.oid, g.bad);
    RefIssuesTrue(world, l, root, |n.nodes|, |n.edges|, v.oid, g.refs);
    var (a, b) := (BadIssues(v.oid, g.bad), RefIssues(v.oid, g.refs));
    MoreIssues(world, l, root, |w.nodes|, |w.edges|, |n.nodes|, |n.edges|, w.issues, a);
    MoreIssues(world, l, root, |n.nodes|, |n.edges|, |n.nodes|, |n.edges|, w.issues + a, b);
    if g.exceeded.Some? {
      var i := Issue(v.oid, None, None, Exceeded(l, g.exceeded.value));
      ExceededTrue(world, l, root, |n.nodes|, |n.edges|, v.oid, g.exceeded.value);
      OneIssueTrue(world, l, root, |n.nodes|, |n.edges|, i);
      MoreIssues(world, l, root, |n.nodes|, |n.edges|, |n.nodes|, |n.edges|, w.issues + a + b, [i]);
    } else {
      ChildrenTrue(world, root, v, g.refs);
      StackGrows(world, root, w.stack, Reversed(Children(v, g.refs)));
    }
  }

  lemma ExceededTrue(world: World, l: Limits, root: string, nodes: nat, edges: nat, x: string, limit: Limit)
    requires Held(world, x) && (limit.Edges? ==> edges >= l.maxEdges)
    ensures IssueTrue(world, l, root, nodes, edges, Issue(x, None, None, Exceeded(l, limit)))
    ensures Exceeded(l, limit).ResourceLimit?
  {
    hide From, CitesAs, FaultIn;
  }

  lemma OpenTrue(world: World, l: Limits, root: string, w: Walk, v: Visit)
    requires Truth(world, l, root, w) && VisitTrue(world, root, v) && v.depth <= l.maxDepth && v.oid !in w.nodes
    requires |w.edges| <= l.maxEdges
    ensures Truth(world, l, root, Open(world, l, w, v))
  {
    hide Truth, Expand, SemanticsOf, Absent, Cites, Describe, Oid.ParseOid;
    if v.oid !in world.store {
      AbsentTrue(world, l, root, w, v);
    } else {
      match world.store[v.oid] {
        case Damaged(detail) =>
          FromVisit(world, root, v, CorruptObject(detail));
          BrokenTrue(world, l, root, w, v, Corrupt(v.kind, detail), CorruptObject(detail));
        case Failing(error) => AbortedTrue(world, l, root, w, error);
        case Verified(obj) =>
          if obj.kind != v.kind {
            var p := TypeMismatch(v.kind, obj.kind);
            FromVisit(world, root, v, p);
            BrokenTrue(world, l, root, w, v, Present(obj.kind, obj.byteLen), p);
          } else {
            var d := WithNode(Describe(w, v, obj), v, Present(obj.kind, obj.byteLen));
            DescribeTrue(world, l, root, w, v, obj);
            DescribeKeepsEdges(w, v, obj);
            ExpandTrue(world, l, root, d, v, obj);
          }
      }
    }
  }

  lemma DescribeKeepsEdges(w: Walk, v: Visit, obj: Stored)
    ensures Describe(w, v, obj).edges == w.edges
  {
  }

  lemma AbortedTrue(world: World, l: Limits, root: string, w: Walk, error: string)
    requires Truth(world, l, root, w)
    ensures Truth(world, l, root, w.(status := Aborted(error)))
  {
    hide StackTrue, IssuesTrue, CutShort, NodeTrue, EdgeTrue, ReadableRecord;
  }

  // ----- Declining -----

  lemma WithIssueTrue(world: World, l: Limits, root: string, w: Walk, i: Issue)
    requires Truth(world, l, root, w) && IssueTrue(world, l, root, |w.nodes|, |w.edges|, i)
    ensures i.problem.ResourceLimit? ==> Truth(world, l, root, Spent(w, i))
    ensures !i.problem.ResourceLimit? ==> Truth(world, l, root, WithIssue(w, i))
  {
    hide NodeTrue, IssueTrue, IssuesTrue, StackTrue, CutShort, EdgeTrue, ReadableRecord, SemanticsOf;
    OneIssueTrue(world, l, root, |w.nodes|, |w.edges|, i);
    MoreIssues(world, l, root, |w.nodes|, |w.edges|, |w.nodes|, |w.edges|, w.issues, [i]);
  }

  lemma DeclineTrue(world: World, l: Limits, root: string, w: Walk, v: Visit)
    requires Truth(world, l, root, w) && VisitTrue(world, root, v) && !Opens(l, w, v)
    ensures Truth(world, l, root, Decline(l, w, v))
  {
    hide Truth, VisitTrue, CyclePath, CheckConstraint, From, CitesAs, Cites, Held, SemanticsOf, Meets, Oid.ParseOid;
    if v.depth > l.maxDepth {
      FromVisit(world, root, v, ResourceLimit("depth", l.maxDepth));
      WithIssueTrue(world, l, root, w, IssueFor(v, ResourceLimit("depth", l.maxDepth)));
    } else if v.oid in w.active {
      CheckedTrue(world, l, root, w, v);
      if !(v.role.Some? && v.role.value.RecordReference?) {
        var p := Cycle(CyclePath(w.path, v.oid));
        FromVisit(world, root, v, p);
        WithIssueTrue(world, l, root, w, IssueFor(v, p));
      }
    } else if v.oid in w.finished {
      CheckedTrue(world, l, root, w, v);
    } else {
      var i := IssueFor(v, ResourceLimit("objects", l.maxObjects));
      FromVisit(world, root, v, ResourceLimit("objects", l.maxObjects));
      WithIssueTrue(world, l, root, w, i);
      StoppedTrue(world, l, root, Spent(w, i));
    }
  }

  lemma StoppedTrue(world: World, l: Limits, root: string, w: Walk)
    requires Truth(world, l, root, w)
    ensures Truth(world, l, root, w.(status := Stopped))
  {
    hide StackTrue, IssuesTrue, CutShort, NodeTrue, EdgeTrue, ReadableRecord;
  }

  // ----- Every step, every report -----

  lemma PoppedTrue(world: World, l: Limits, root: string, w: Walk)
    requires Truth(world, l, root, w) && w.stack != []
    ensures var k := |w.stack| - 1;
            && Truth(world, l, root, w.(stack := w.stack[..k]))
            && (w.stack[k].Enter? ==> VisitTrue(world, root, w.stack[k].visit))
  {
    hide IssuesTrue, CutShort, NodeTrue, EdgeTrue, ReadableRecord, VisitTrue;
  }

  lemma ActivatedTrue(world: World, l: Limits, root: string, w: Walk, v: Visit)
    requires Truth(world, l, root, w)
    ensures Truth(world, l, root, Activate(w, v))
  {
    hide IssuesTrue, CutShort, NodeTrue, EdgeTrue, ReadableRecord, VisitTrue;
  }

  lemma LeaveTrue(world: World, l: Limits, root: string, w: Walk, oid: string)
    requires Truth(world, l, root, w)
    ensures Truth(world, l, root, Leave(w, oid))
  {
    hide IssuesTrue, StackTrue, CutShort, NodeTrue, EdgeTrue, ReadableRecord;
  }

  lemma StepKeepsTruth(world: World, l: Limits, root: string, w: Walk)
    requires Live(w) && Truth(world, l, root, w) && Shape(l, root, w)
    ensures Truth(world, l, root, Step(world, l, w))
  {
    hide Truth, Leave, Open, Decline, Chain, PathOk, CyclesAreReal, VisitTrue;
    PoppedTrue(world, l, root, w);
    var k := |w.stack| - 1;
    var p := w.(stack := w.stack[..k]);
    match w.stack[k]
    case Exit(oid) => LeaveTrue(world, l, root, p, oid);
    case Enter(v) =>
      if Opens(l, p, v) {
        ActivatedTrue(world, l, root, p, v);
        OpenTrue(world, l, root, Activate(p, v), v);
      } else {
        DeclineTrue(world, l, root, p, v);
      }
  }

  lemma {:induction false} RunKeepsTruth(world: World, l: Limits, root: string, w: Walk)
    requires Counted(l, w) && Truth(world, l, root, w) && Shape(l, root, w)
    ensures Truth(world, l, root, Run(world, l, w))
    decreases l.maxObjects - |w.nodes|, |w.stack|
  {
    hide Truth, Step, Shape;
    if Live(w) {
      StepAdvances(world, l, w);
      StepKeepsTruth(world, l, root, w);
      StepKeepsShape(world, l, root, w);
      if Step(world, l, w).status.Running? { RunKeepsTruth(world, l, root, Step(world, l, w)); }
    }
  }

  lemma StartsTrue(world: World, l: Limits, root: string)
    requires Oid.ParseOid(root) == Some(Oid.Commit)
    ensures Truth(world, l, root, Initial(root))
  {
    hide Cites;
  }

  /**
   * In every report, complete or not, on every store and under every limit: each node says what the
   * store and the tombstones say of its object, within the depth limit; each edge is a reference of
   * the object it starts from; each issue names something that is so, with the object and role it
   * came from; and the report is marked as cut short exactly when a spent limit is among its issues.
   */
  lemma EveryReportIsTrue(world: World, l: Limits, root: string)
    requires Oid.ParseOid(root) == Some(Oid.Commit) && Verify(world, l, root).Reported?
    ensures var r := Verify(world, l, root).report;
            && (forall x | x in r.nodes :: NodeTrue(world, l, x, r.nodes[x]))
            && (forall k | 0 <= k < |r.edges| :: EdgeTrue(world, r.edges[k]))
            && (forall k | 0 <= k < |r.issues| :: IssueTrue(world, l, root, |r.nodes|, |r.edges|, r.issues[k]))
            && (r.truncated <==> CutShort(r.issues))
  {
    hide Oid.ParseOid, Shape, Run, NodeTrue, EdgeTrue, IssueTrue, CutShort, StackTrue;
    StartsTrue(world, l, root);
    ShapeStarts(l, root);
    RunKeepsTruth(world, l, root, Initial(root));
  }
}
