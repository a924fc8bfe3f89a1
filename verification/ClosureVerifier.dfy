/** The closure verifier as it runs: a work stack, sets and maps updated in a loop. */
module ClosureVerifier {
  import opened Optional
  import opened References
  import opened ReferenceExtractor
  import opened ClosureWalk
  import Oid

  lemma RunUnfolds(world: World, l: Limits, w: Walk)
    requires Live(w) && Counted(l, w)
    ensures var n := Step(world, l, w);
            && Counted(l, n)
            && Run(world, l, w) == (if n.status.Running? then Run(world, l, n) else n)
            && (n.status.Running? ==> |w.nodes| < |n.nodes| || (n.nodes == w.nodes && |n.stack| < |w.stack|))
  {
    hide Step;
    StepAdvances(world, l, w);
  }

  lemma EdgesOfNext(source: string, refs: seq<Reference>, i: nat)
    requires i < |refs|
    ensures EdgesOf(source, refs[..i + 1]) == EdgesOf(source, refs[..i]) + [EdgeOf(source, refs[i])]
  {
  }

  /** The first of the remaining references adds to the issues or to the visits. */
  lemma NextReference(v: Visit, refs: seq<Reference>, i: nat)
    requires i < |refs|
    ensures RefIssues(v.oid, refs[i..]) ==
              (if Leads(refs[i]) then [] else [RefIssue(v.oid, refs[i])]) + RefIssues(v.oid, refs[i + 1..])
    ensures Children(v, refs[i..]) ==
              (if Leads(refs[i]) then [VisitOf(v, refs[i])] else []) + Children(v, refs[i + 1..])
  {
    hide Leads, RefIssue;
    assert refs[i..][1..] == refs[i + 1..];
  }

  /** Records an object's references as edges, reports the ones that lead nowhere, and lists the visits still owed. */
  method TakeReferences(v: Visit, refs: seq<Reference>, edges: seq<Edge>, issues: seq<Issue>)
    returns (edges': seq<Edge>, issues': seq<Issue>, children: seq<Visit>)
    ensures edges' == edges + EdgesOf(v.oid, refs)
    ensures issues' == issues + RefIssues(v.oid, refs)
    ensures children == Children(v, refs)
  {
    hide Oid.ParseOid, EdgesOf, RefIssues, Children;
    edges', issues', children := edges, issues, [];
    NoReferences(v, refs);
    for i := 0 to |refs|
      invariant edges' == edges + EdgesOf(v.oid, refs[..i])
      invariant issues' + RefIssues(v.oid, refs[i..]) == issues + RefIssues(v.oid, refs)
      invariant children + Children(v, refs[i..]) == Children(v, refs)
    {
      var r := refs[i];
      EdgesOfNext(v.oid, refs, i);
      NextReference(v, refs, i);
      edges' := edges' + [Edge(v.oid, r.target, r.expectedKind, r.role)];
      var kind := Oid.ParseOid(r.target);
      if kind.None? {
        issues' := issues' + [Issue(v.oid, None, Some(r.role), InvalidReference(r.target))];
      } else if kind.value != r.expectedKind {
        issues' := issues' + [Issue(r.target, Some(v.oid), Some(r.role), TypeMismatch(r.expectedKind, kind.value))];
      } else {
        children := children + [Visit(r.target, kind.value, v.depth + 1, Some(v.oid), Some(r.role), r.constraint)];
      }
    }
  }

  lemma NoReferences(v: Visit, refs: seq<Reference>)
    ensures refs[0..] == refs && refs[..|refs|] == refs
    ensures EdgesOf(v.oid, refs[..0]) == [] && RefIssues(v.oid, refs[|refs|..]) == []
            && Children(v, refs[|refs|..]) == []
  {
  }

  method PushReversed(stack: seq<WorkItem>, children: seq<Visit>) returns (stack': seq<WorkItem>)
    ensures stack' == stack + Reversed(children)
  {
    stack' := stack;
    var i := |children|;
    assert children[i..] == [];
    while i > 0
      invariant 0 <= i <= |children|
      invariant stack' == stack + Reversed(children[i..])
    {
      i := i - 1;
      assert children[i..][1..] == children[i + 1..];
      stack' := stack' + [Enter(children[i])];
    }
    assert children[0..] == children;
  }

  method PushBad(oid: string, bad: seq<Detail>, issues: seq<Issue>) returns (issues': seq<Issue>)
    ensures issues' == issues + BadIssues(oid, bad)
  {
    issues' := issues;
    for i := 0 to |bad|
      invariant issues' == issues + BadIssues(oid, bad)[..i]
    {
      issues' := issues' + [Issue(oid, None, None, InvalidObject(bad[i]))];
    }
  }

  /** The variables one verification updates. */
  class ClosureWalker {
    const world: World
    const limits: Limits
    var stack: seq<WorkItem>
    var finished: seq<string>
    var active: set<string>
    var path: seq<string>
    var semantics: map<string, Semantics>
    var bytes: nat
    var nodes: map<string, Node>
    var edges: seq<Edge>
    var issues: seq<Issue>
    var truncated: bool
    var status: Status

    constructor (world: World, limits: Limits, root: string)
      ensures this.world == world && this.limits == limits && View() == Initial(root)
    {
      this.world, this.limits := world, limits;
      stack := [Enter(Visit(root, Oid.Commit, 0, None, None, None))];
      finished, active, path, semantics, bytes := [], {}, [], map[], 0;
      nodes, edges, issues, truncated, status := map[], [], [], false, Running;
    }

    function View(): Walk
      reads this
    {
      Walk(stack, finished, active, path, semantics, bytes, nodes, edges, issues, truncated, status)
    }

    method LeaveObject(oid: string)
      modifies this
      ensures View() == Leave(old(View()), oid)
    {
      active := active - {oid};
      if path != [] && path[|path| - 1] == oid {
        path := path[..|path| - 1];
      }
      if oid !in finished {
        finished := finished + [oid];
      }
    }

    method RecordConstraintIssue(v: Visit)
      modifies this`issues
      ensures View() == CheckConstraint(old(View()), v)
    {
      hide Meets;
      if v.constraint.None? {
        return;
      }
      if v.oid !in semantics {
        return;
      }
      if Meets(semantics[v.oid], v.constraint.value) {
        return;
      }
      issues := issues + [IssueFor(v, SemanticMismatch(v.constraint.value, semantics[v.oid]))];
    }

    method ReportCycle(v: Visit)
      requires v.oid in active
      modifies this`issues
      ensures View() == WithIssue(old(View()), IssueFor(v, Cycle(CyclePath(old(path), v.oid))))
    {
      var start := 0;
      while start < |path| && path[start] != v.oid
        invariant 0 <= start <= |path| && v.oid !in path[..start]
      {
        start := start + 1;
      }
      if start == |path| {
        start := 0;
      }
      FirstIndex(path, v.oid, start);
      issues := issues + [IssueFor(v, Cycle(path[start..] + [v.oid]))];
    }

    method VisitObject(v: Visit)
      requires status.Running?
      modifies this
      ensures View() == Arrive(world, limits, old(View()), v)
    {
      hide Open, CyclePath, ConstraintIssues;
      if v.depth > limits.maxDepth {
        truncated := true;
        issues := issues + [IssueFor(v, ResourceLimit("depth", limits.maxDepth))];
        return;
      }
      if v.oid in active {
        if v.role.Some? && v.role.value.RecordReference? {
          RecordConstraintIssue(v);
          return;
        }
        ReportCycle(v);
        return;
      }
      if v.oid in finished {
        RecordConstraintIssue(v);
        return;
      }
      if |nodes| >= limits.maxObjects {
        truncated := true;
        issues := issues + [IssueFor(v, ResourceLimit("objects", limits.maxObjects))];
        status := Stopped;
        return;
      }
      active := active + {v.oid};
      path := path + [v.oid];
      stack := stack + [Exit(v.oid)];
      OpenObject(v);
    }

    method InsertNode(v: Visit, state: NodeState)
      modifies this`nodes
      ensures View() == WithNode(old(View()), v, state)
    {
      nodes := nodes[v.oid := Node(v.oid, v.depth, state)];
    }

    method OpenObject(v: Visit)
      requires status.Running?
      modifies this
      ensures View() == Open(world, limits, old(View()), v)
    {
      hide Expand, SemanticsOf, ConstraintIssues;
      if v.oid !in world.store {
        if v.oid in world.tombstones {
          InsertNode(v, Tombstoned(v.kind, world.tombstones[v.oid]));
          if v.depth == 0 && v.kind.Commit? {
            issues := issues + [IssueFor(v, MissingObject)];
          }
          return;
        }
        InsertNode(v, Missing(v.kind));
        issues := issues + [IssueFor(v, MissingObject)];
        return;
      }
      match world.store[v.oid] {
        case Damaged(detail) =>
          InsertNode(v, Corrupt(v.kind, detail));
          issues := issues + [IssueFor(v, CorruptObject(detail))];
        case Failing(error) =>
          status := Aborted(error);
        case Verified(obj) =>
          if obj.kind != v.kind {
            InsertNode(v, Present(obj.kind, obj.byteLen));
            issues := issues + [IssueFor(v, TypeMismatch(v.kind, obj.kind))];
            return;
          }
          if obj.kind.Record? && obj.body.Some? {
            semantics := semantics[v.oid := SemanticsOf(obj.body.value)];
            RecordConstraintIssue(v);
          }
          InsertNode(v, Present(obj.kind, obj.byteLen));
          ExpandObject(v, obj);
      }
    }

    method ExpandObject(v: Visit, obj: Stored)
      modifies this
      ensures View() == Expand(limits, old(View()), v, obj)
    {
      hide GatherAll, Items, RefIssues, Children, EdgesOf, Reversed, BadIssues, Exceeded;
      var remainingEdges := if |edges| <= limits.maxEdges then limits.maxEdges - |edges| else 0;
      var remainingBytes := if bytes <= MAX_GRAPH_REFERENCE_BYTES then MAX_GRAPH_REFERENCE_BYTES - bytes else 0;
      var g := ExtractReferences(v.oid, obj, remainingEdges, remainingBytes);
      bytes := bytes + g.charged;
      var found := PushBad(v.oid, g.bad, issues);
      var recorded, reported, children := TakeReferences(v, g.refs, edges, found);
      edges, issues := recorded, reported;
      if g.exceeded.Some? {
        Exceed(v.oid, g.exceeded.value);
        return;
      }
      stack := PushReversed(stack, children);
    }

    method Exceed(oid: string, limit: Limit)
      modifies this
      ensures View() == Spent(old(View()), Issue(oid, None, None, Exceeded(limits, limit))).(status := Stopped)
    {
      truncated := true;
      var problem := if limit.Edges? then ResourceLimit("edges", limits.maxEdges)
                     else ResourceLimit("reference_bytes", MAX_GRAPH_REFERENCE_BYTES);
      issues := issues + [Issue(oid, None, None, problem)];
      status := Stopped;
    }
  }

  lemma {:induction false} FirstIndex(path: seq<string>, oid: string, start: nat)
    requires start <= |path| && oid !in path[..start]
    requires (start < |path| && path[start] == oid) || (start == 0 && oid !in path)
    ensures PositionOf(path, oid) == start
  {
    if oid in path && start > 0 {
      assert path[0] == path[..start][0];
      forall i | 0 <= i < start - 1 ensures path[1..][i] != oid {
        assert path[1..][i] == path[..start][i + 1];
      }
      FirstIndex(path[1..], oid, start - 1);
    }
  }

  lemma RunEnds(world: World, l: Limits, w: Walk)
    requires Counted(l, w) && w.stack == []
    ensures Run(world, l, w) == w
  {
  }

  /** One turn of the loop. */
  method TakeItem(walk: ClosureWalker)
    requires Live(walk.View()) && Counted(walk.limits, walk.View())
    modifies walk
    ensures walk.View() == Step(walk.world, walk.limits, old(walk.View()))
    ensures Counted(walk.limits, walk.View())
    ensures Run(walk.world, walk.limits, old(walk.View()))
            == if walk.status.Running? then Run(walk.world, walk.limits, walk.View()) else walk.View()
    ensures walk.status.Running? ==>
              old(|walk.nodes|) < |walk.nodes| || (walk.nodes == old(walk.nodes) && |walk.stack| < old(|walk.stack|))
  {
    hide Arrive, Leave, Run;
    RunUnfolds(walk.world, walk.limits, walk.View());
    var item := walk.stack[|walk.stack| - 1];
    walk.stack := walk.stack[..|walk.stack| - 1];
    match item
    case Exit(oid) => walk.LeaveObject(oid);
    case Enter(v) => walk.VisitObject(v);
  }

  /** Verifies one root: the report, or the error that ended the walk, is the one the state machine gives. */
  method VerifyClosure(world: World, l: Limits, root: string) returns (r: Verdict)
    ensures r == Verify(world, l, root)
  {
    hide Oid.ParseOid, Step, Run, Arrive, Leave;
    var rootKind := Oid.ParseOid(root);
    if rootKind.None? {
      return Refused("invalid OID");
    }
    if !rootKind.value.Commit? {
      return Reported(Report(root, map[], [], [Issue(root, None, None, TypeMismatch(Oid.Commit, rootKind.value))],
                             false));
    }
    var walk := new ClosureWalker(world, l, root);
    while walk.status.Running? && walk.stack != []
      invariant walk.world == world && walk.limits == l
      invariant Counted(l, walk.View())
      invariant Run(world, l, Initial(root)) == if walk.status.Running? then Run(world, l, walk.View()) else walk.View()
      decreases if walk.status.Running? then 1 else 0, l.maxObjects - |walk.nodes|, |walk.stack|
    {
      TakeItem(walk);
    }
    if walk.status.Running? { RunEnds(world, l, walk.View()); }
    r := if walk.status.Aborted? then Refused(walk.status.error)
         else Reported(Report(root, walk.nodes, walk.edges, walk.issues, walk.truncated));
  }
}
