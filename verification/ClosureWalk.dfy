/** The closure verifier as a state machine: one step takes one item off the work stack. */
module ClosureWalk {
  import opened Optional
  import opened References
  import Oid

  /** What the object store answers for a name it holds. A name outside the map is missing. */
  datatype Answer = Verified(content: Stored) | Damaged(detail: string) | Failing(error: string)

  datatype Limits = Limits(maxObjects: nat, maxEdges: nat, maxDepth: nat)

  datatype World = World(store: map<string, Answer>, tombstones: map<string, string>)

  datatype NodeState =
    | Present(kind: Kind, byteLen: nat)
    | Tombstoned(kind: Kind, tombstone: string)
    | Missing(kind: Kind)
    | Corrupt(kind: Kind, detail: string)

  datatype Node = Node(oid: string, depth: nat, state: NodeState)

  datatype Edge = Edge(source: string, target: string, expectedKind: Kind, role: Role)

  datatype Problem =
    | MissingObject
    | CorruptObject(detail: string)
    | TypeMismatch(expected: Kind, actual: Kind)
    | SemanticMismatch(constraint: Constraint, semantics: Semantics)
    | InvalidObject(part: Detail)
    | InvalidReference(value: string)
    | Cycle(path: seq<string>)
    | ResourceLimit(resource: string, limit: nat)

  datatype Issue = Issue(oid: string, referencedBy: Option<string>, role: Option<Role>, problem: Problem)

  datatype Visit = Visit(
    oid: string, kind: Kind, depth: nat,
    referencedBy: Option<string>, role: Option<Role>, constraint: Option<Constraint>)

  datatype WorkItem = Enter(visit: Visit) | Exit(oid: string)

  datatype Report = Report(
    root: string, nodes: map<string, Node>, edges: seq<Edge>, issues: seq<Issue>, truncated: bool)
  {
    predicate Complete() { !truncated && issues == [] }
  }

  datatype Status = Running | Stopped | Aborted(error: string)

  /** Everything the walk updates. `finished` lists the finished objects in the order they were finished. */
  datatype Walk = Walk(
    stack: seq<WorkItem>, finished: seq<string>, active: set<string>, path: seq<string>,
    semantics: map<string, Semantics>, bytes: nat,
    nodes: map<string, Node>, edges: seq<Edge>, issues: seq<Issue>, truncated: bool, status: Status)

  function IssueFor(v: Visit, p: Problem): Issue { Issue(v.oid, v.referencedBy, v.role, p) }

  function WithIssue(w: Walk, i: Issue): Walk { w.(issues := w.issues + [i]) }

  function WithNode(w: Walk, v: Visit, s: NodeState): Walk {
    w.(nodes := w.nodes[v.oid := Node(v.oid, v.depth, s)])
  }

  // ----- Leaving an object -----

  function Leave(w: Walk, oid: string): Walk {
    w.(active := w.active - {oid},
       path := if w.path != [] && w.path[|w.path| - 1] == oid then w.path[..|w.path| - 1] else w.path,
       finished := if oid in w.finished then w.finished else w.finished + [oid])
  }

  // ----- Entering an object -----

  function ConstraintIssues(semantics: map<string, Semantics>, v: Visit): seq<Issue> {
    if v.constraint.Some? && v.oid in semantics && !Meets(semantics[v.oid], v.constraint.value)
    then [IssueFor(v, SemanticMismatch(v.constraint.value, semantics[v.oid]))]
    else []
  }

  function CheckConstraint(w: Walk, v: Visit): Walk { w.(issues := w.issues + ConstraintIssues(w.semantics, v)) }

  function PositionOf(path: seq<string>, oid: string): (i: nat)
    ensures oid in path ==> i < |path| && path[i] == oid
    ensures oid !in path ==> i == 0
    decreases path
  {
    if oid !in path then 0 else if path[0] == oid then 0 else 1 + PositionOf(path[1..], oid)
  }

  /** The active path from the first occurrence of `oid`, closed by `oid` itself. */
  function CyclePath(path: seq<string>, oid: string): seq<string> {
    path[PositionOf(path, oid)..] + [oid]
  }

  function Spent(w: Walk, i: Issue): Walk { w.(issues := w.issues + [i], truncated := true) }

  /** A visit opens its object when it is in depth, the object is new, and the object budget has room. */
  predicate Opens(l: Limits, w: Walk, v: Visit) {
    v.depth <= l.maxDepth && v.oid !in w.active && v.oid !in w.finished && |w.nodes| < l.maxObjects
  }

  function Arrive(world: World, l: Limits, w: Walk, v: Visit): Walk {
    if Opens(l, w, v) then Open(world, l, Activate(w, v), v) else Decline(l, w, v)
  }

  /** A visit that opens nothing. */
  function Decline(l: Limits, w: Walk, v: Visit): Walk {
    if v.depth > l.maxDepth then
      Spent(w, IssueFor(v, ResourceLimit("depth", l.maxDepth)))
    else if v.oid in w.active then
      if v.role.Some? && v.role.value.RecordReference? then CheckConstraint(w, v)
      else WithIssue(w, IssueFor(v, Cycle(CyclePath(w.path, v.oid))))
    else if v.oid in w.finished then
      CheckConstraint(w, v)
    else
      Spent(w, IssueFor(v, ResourceLimit("objects", l.maxObjects))).(status := Stopped)
  }

  function Activate(w: Walk, v: Visit): Walk {
    w.(active := w.active + {v.oid}, path := w.path + [v.oid], stack := w.stack + [Exit(v.oid)])
  }

  function Open(world: World, l: Limits, w: Walk, v: Visit): Walk {
    if v.oid !in world.store then Absent(world, w, v)
    else
      match world.store[v.oid]
      case Damaged(detail) =>
        WithIssue(WithNode(w, v, Corrupt(v.kind, detail)), IssueFor(v, CorruptObject(detail)))
      case Failing(error) => w.(status := Aborted(error))
      case Verified(obj) =>
        if obj.kind != v.kind then
          WithIssue(WithNode(w, v, Present(obj.kind, obj.byteLen)), IssueFor(v, TypeMismatch(v.kind, obj.kind)))
        else
          Expand(l, WithNode(Describe(w, v, obj), v, Present(obj.kind, obj.byteLen)), v, obj)
  }

  /** A Tombstone stands in for a missing object anywhere but at the root. */
  function Absent(world: World, w: Walk, v: Visit): Walk {
    if v.oid in world.tombstones then
      var t := WithNode(w, v, Tombstoned(v.kind, world.tombstones[v.oid]));
      if v.depth == 0 && v.kind.Commit? then WithIssue(t, IssueFor(v, MissingObject)) else t
    else
      WithIssue(WithNode(w, v, Missing(v.kind)), IssueFor(v, MissingObject))
  }

  function Describe(w: Walk, v: Visit, obj: Stored): Walk {
    if obj.kind.Record? && obj.body.Some? then
      CheckConstraint(w.(semantics := w.semantics[v.oid := SemanticsOf(obj.body.value)]), v)
    else w
  }

  function Remaining(l: Limits, w: Walk): Budget {
    Budget(if |w.edges| <= l.maxEdges then l.maxEdges - |w.edges| else 0,
           if w.bytes <= MAX_GRAPH_REFERENCE_BYTES then MAX_GRAPH_REFERENCE_BYTES - w.bytes else 0)
  }

  function Expand(l: Limits, w: Walk, v: Visit, obj: Stored): Walk {
    var g := GatherAll(Remaining(l, w), NOTHING, Items(v.oid, obj));
    var next := w.(
      bytes := w.bytes + g.charged,
      edges := w.edges + EdgesOf(v.oid, g.refs),
      issues := w.issues + BadIssues(v.oid, g.bad) + RefIssues(v.oid, g.refs));
    match g.exceeded
    case Some(limit) =>
      Spent(next, Issue(v.oid, None, None, Exceeded(l, limit))).(status := Stopped)
    case None => next.(stack := next.stack + Reversed(Children(v, g.refs)))
  }

  function Exceeded(l: Limits, limit: Limit): Problem {
    if limit.Edges? then ResourceLimit("edges", l.maxEdges)
    else ResourceLimit("reference_bytes", MAX_GRAPH_REFERENCE_BYTES)
  }

  function EdgeOf(source: string, r: Reference): Edge { Edge(source, r.target, r.expectedKind, r.role) }

  function EdgesOf(source: string, refs: seq<Reference>): (es: seq<Edge>)
    ensures |es| == |refs|
  {
    seq(|refs|, i requires 0 <= i < |refs| => EdgeOf(source, refs[i]))
  }

  function BadIssues(source: string, bad: seq<Detail>): (issues: seq<Issue>)
    ensures |issues| == |bad|
  {
    seq(|bad|, i requires 0 <= i < |bad| => Issue(source, None, None, InvalidObject(bad[i])))
  }

  /** A reference leads somewhere when its target is an identifier of the kind the reference names. */
  predicate Leads(r: Reference) { Oid.ParseOid(r.target) == Some(r.expectedKind) }

  function RefIssue(source: string, r: Reference): Issue {
    match Oid.ParseOid(r.target)
    case None => Issue(source, None, Some(r.role), InvalidReference(r.target))
    case Some(actual) => Issue(r.target, Some(source), Some(r.role), TypeMismatch(r.expectedKind, actual))
  }

  function RefIssues(source: string, refs: seq<Reference>): seq<Issue> {
    if refs == [] then []
    else (if Leads(refs[0]) then [] else [RefIssue(source, refs[0])]) + RefIssues(source, refs[1..])
  }

  function VisitOf(v: Visit, r: Reference): Visit {
    Visit(r.target, r.expectedKind, v.depth + 1, Some(v.oid), Some(r.role), r.constraint)
  }

  function Children(v: Visit, refs: seq<Reference>): seq<Visit> {
    if refs == [] then []
    else (if Leads(refs[0]) then [VisitOf(v, refs[0])] else []) + Children(v, refs[1..])
  }

  function Reversed(vs: seq<Visit>): seq<WorkItem> {
    if vs == [] then [] else Reversed(vs[1..]) + [Enter(vs[0])]
  }

  // ----- The whole walk -----

  predicate Live(w: Walk) { w.status.Running? && w.stack != [] }

  function Step(world: World, l: Limits, w: Walk): Walk
    requires w.stack != []
  {
    var k := |w.stack| - 1;
    match w.stack[k]
    case Exit(oid) => Leave(w.(stack := w.stack[..k]), oid)
    case Enter(v) => Arrive(world, l, w.(stack := w.stack[..k]), v)
  }

  function Set(s: seq<string>): set<string> { set x | x in s }

  /** Every object with a node is active or finished, so entering an object always adds a node. */
  predicate Counted(l: Limits, w: Walk) {
    && w.nodes.Keys <= w.active + Set(w.finished)
    && |w.nodes| <= l.maxObjects
  }

  lemma StepAdvances(world: World, l: Limits, w: Walk)
    requires Live(w) && Counted(l, w)
    ensures var n := Step(world, l, w);
            && Counted(l, n)
            && (n.status.Running? ==> |w.nodes| < |n.nodes| || (n.nodes == w.nodes && |n.stack| < |w.stack|))
  {
    hide Arrive, Leave;
    var k := |w.stack| - 1;
    match w.stack[k]
    case Exit(oid) => LeaveCounts(l, w.(stack := w.stack[..k]), oid);
    case Enter(v) => ArriveAdvances(world, l, w.(stack := w.stack[..k]), v);
  }

  lemma LeaveCounts(l: Limits, w: Walk, oid: string)
    requires Counted(l, w)
    ensures var n := Leave(w, oid); Counted(l, n) && n.nodes == w.nodes && n.stack == w.stack
  {
    var n := Leave(w, oid);
    assert oid in n.finished;
    forall x | x in w.finished ensures x in n.finished {
    }
  }

  lemma ArriveAdvances(world: World, l: Limits, w: Walk, v: Visit)
    requires Counted(l, w) && w.status.Running?
    ensures var n := Arrive(world, l, w, v);
            && Counted(l, n)
            && (n.status.Running? ==> |w.nodes| < |n.nodes| || (n.nodes == w.nodes && n.stack == w.stack))
  {
    hide Open, Decline;
    if Opens(l, w, v) {
      var a := Activate(w, v);
      OpenAddsNode(world, l, a, v);
      OneMoreNode(l, w, Open(world, l, a, v), v.oid);
    } else {
      DeclineKeeps(l, w, v);
    }
  }

  lemma DeclineKeeps(l: Limits, w: Walk, v: Visit)
    ensures var n := Decline(l, w, v);
            && n.active == w.active && n.finished == w.finished && n.path == w.path && n.stack == w.stack
            && n.nodes == w.nodes && n.edges == w.edges && n.semantics == w.semantics && n.bytes == w.bytes
  {
    hide CyclePath, ConstraintIssues;
  }

  lemma OneMoreNode(l: Limits, w: Walk, n: Walk, oid: string)
    requires Counted(l, w) && oid !in w.active && oid !in w.finished && |w.nodes| < l.maxObjects
    requires n.active == w.active + {oid} && n.finished == w.finished
    requires n.nodes.Keys == w.nodes.Keys + {oid} || n.nodes.Keys == w.nodes.Keys
    ensures Counted(l, n)
    ensures n.nodes.Keys == w.nodes.Keys + {oid} ==> |n.nodes| == |w.nodes| + 1
  {
    assert oid !in w.nodes.Keys;
    assert |n.nodes| == |n.nodes.Keys| && |w.nodes| == |w.nodes.Keys|;
  }

  /** Opening an object adds exactly its node, unless the store fails; nothing becomes active or finished. */
  lemma OpenAddsNode(world: World, l: Limits, w: Walk, v: Visit)
    requires w.status.Running?
    ensures var n := Open(world, l, w, v);
            && n.active == w.active && n.finished == w.finished && n.path == w.path
            && n.nodes.Keys == w.nodes.Keys + (if n.status.Aborted? then {} else {v.oid})
  {
    hide Expand, SemanticsOf, ConstraintIssues;
    if v.oid in world.store && world.store[v.oid].Verified? {
      var obj := world.store[v.oid].content;
      ExpandKeeps(l, WithNode(Describe(w, v, obj), v, Present(obj.kind, obj.byteLen)), v, obj);
    }
  }

  lemma ExpandKeeps(l: Limits, w: Walk, v: Visit, obj: Stored)
    ensures var n := Expand(l, w, v, obj);
            && n.active == w.active && n.finished == w.finished && n.path == w.path
            && n.nodes == w.nodes && n.semantics == w.semantics
            && (n.status == w.status || n.status == Stopped)
  {
    hide GatherAll, Items, BadIssues, RefIssues, Children, EdgesOf, Reversed;
  }

  /** The walk to its end. The bound on objects makes it terminate on every store. */
  function Run(world: World, l: Limits, w: Walk): Walk
    requires Counted(l, w)
    decreases l.maxObjects - |w.nodes|, |w.stack|
  {
    if !Live(w) then w
    else
      StepAdvances(world, l, w);
      var n := Step(world, l, w);
      if !n.status.Running? then n else Run(world, l, n)
  }

  function RootVisit(root: string): Visit { Visit(root, Oid.Commit, 0, None, None, None) }

  function Initial(root: string): Walk {
    Walk([Enter(RootVisit(root))], [], {}, [], map[], 0, map[], [], [], false, Running)
  }

  datatype Verdict = Reported(report: Report) | Refused(error: string)

  function ReportOf(root: string, w: Walk): Verdict {
    if w.status.Aborted? then Refused(w.status.error)
    else Reported(Report(root, w.nodes, w.edges, w.issues, w.truncated))
  }

  /** The verdict on one root. */
  function Verify(world: World, l: Limits, root: string): Verdict {
    match Oid.ParseOid(root)
    case None => Refused("invalid OID")
    case Some(kind) =>
      if !kind.Commit? then
        Reported(Report(root, map[], [], [Issue(root, None, None, TypeMismatch(Oid.Commit, kind))], false))
      else
        ReportOf(root, Run(world, l, Initial(root)))
  }
}
