/**
 * What every state of a closure walk keeps, complete or not: its shape, its budgets, and that
 * reported cycles are real.
 */
module ClosureShape {
  import opened Optional
  import opened References
  import opened ClosureWalk
  import Oid

  predicate Joined(edges: seq<Edge>, a: string, b: string) {
    exists i | 0 <= i < |edges| :: edges[i].source == a && edges[i].target == b
  }

  /** Consecutive objects are joined by recorded edges. */
  ghost predicate Linked(path: seq<string>, edges: seq<Edge>) {
    forall i | 0 <= i < |path| - 1 :: Joined(edges, path[i], path[i + 1])
  }

  predicate Distinct(s: seq<string>) { forall i, j | 0 <= i < j < |s| :: s[i] != s[j] }

  /** A pending visit continues the active path along a recorded edge, or is the root's. */
  predicate Continues(root: string, v: Visit, path: seq<string>, edges: seq<Edge>) {
    && v.depth == |path|
    && Oid.ParseOid(v.oid) == Some(v.kind)
    && if path == [] then v == RootVisit(root)
       else v.referencedBy == Some(path[|path| - 1]) && v.role.Some?
            && Edge(path[|path| - 1], v.oid, v.kind, v.role.value) in edges
  }

  /** The stack interleaves the exits of the active path with the visits each of its objects still owes. */
  ghost predicate Chain(root: string, stack: seq<WorkItem>, path: seq<string>, edges: seq<Edge>)
    decreases |stack|
  {
    if stack == [] then path == []
    else
      var k := |stack| - 1;
      match stack[k]
      case Enter(v) => Continues(root, v, path, edges) && Chain(root, stack[..k], path, edges)
      case Exit(o) => path != [] && path[|path| - 1] == o && Chain(root, stack[..k], path[..|path| - 1], edges)
  }

  lemma {:induction false} ChainGrows(root: string, stack: seq<WorkItem>, path: seq<string>, edges: seq<Edge>,
                                      more: seq<Edge>)
    requires Chain(root, stack, path, edges)
    ensures Chain(root, stack, path, edges + more)
    decreases |stack|
  {
    hide Oid.ParseOid;
    if stack != [] {
      var k := |stack| - 1;
      match stack[k]
      case Enter(v) => ChainGrows(root, stack[..k], path, edges, more);
      case Exit(o) => ChainGrows(root, stack[..k], path[..|path| - 1], edges, more);
    }
  }

  lemma {:induction false} ChainPush(root: string, stack: seq<WorkItem>, path: seq<string>, edges: seq<Edge>,
                                     vs: seq<Visit>)
    requires Chain(root, stack, path, edges)
    requires forall i | 0 <= i < |vs| :: Continues(root, vs[i], path, edges)
    ensures Chain(root, stack + Reversed(vs), path, edges)
    decreases |vs|
  {
    hide Continues;
    if vs == [] {
      assert stack + Reversed(vs) == stack;
    } else {
      ChainPush(root, stack, path, edges, vs[1..]);
      var s := stack + Reversed(vs);
      assert s == (stack + Reversed(vs[1..])) + [Enter(vs[0])];
      assert s[..|s| - 1] == stack + Reversed(vs[1..]);
    }
  }

  lemma ChainExit(root: string, stack: seq<WorkItem>, path: seq<string>, edges: seq<Edge>, oid: string)
    requires Chain(root, stack, path, edges)
    ensures Chain(root, stack + [Exit(oid)], path + [oid], edges)
  {
    hide Continues;
    assert (stack + [Exit(oid)])[..|stack|] == stack;
    assert (path + [oid])[..|path|] == path;
  }

  /** The active path runs from the root along recorded edges without repeating itself or a finished object. */
  ghost predicate PathOk(root: string, w: Walk) {
    && w.active == Set(w.path)
    && Distinct(w.path) && Distinct(w.finished)
    && (forall x | x in w.path :: x !in w.finished)
    && (w.path != [] ==> w.path[0] == root)
    && Linked(w.path, w.edges)
  }

  ghost predicate RealCycle(i: Issue, edges: seq<Edge>) {
    i.problem.Cycle? ==>
      var p := i.problem.path;
      |p| >= 2 && p[0] == i.oid && p[|p| - 1] == i.oid && Linked(p, edges)
  }

  ghost predicate CyclesAreReal(w: Walk) { forall i | i in w.issues :: RealCycle(i, w.edges) }

  ghost predicate Shape(l: Limits, root: string, w: Walk) {
    && Chain(root, w.stack, w.path, w.edges)
    && PathOk(root, w)
    && CyclesAreReal(w)
    && w.nodes.Keys == w.active + Set(w.finished)
    && InBudget(l, w)
  }

  predicate InBudget(l: Limits, w: Walk) {
    |w.nodes| <= l.maxObjects && |w.edges| <= l.maxEdges && w.bytes <= MAX_GRAPH_REFERENCE_BYTES
  }

  lemma ShapeStarts(l: Limits, root: string)
    requires Oid.ParseOid(root) == Some(Oid.Commit)
    ensures Shape(l, root, Initial(root))
  {
    hide Oid.ParseOid;
    var w := Initial(root);
    assert w.stack[..0] == [];
    assert Chain(root, w.stack[..0], [], []);
  }

  // ----- Leaving -----

  lemma SetPush(s: seq<string>, x: string)
    ensures Set(s + [x]) == Set(s) + {x}
    ensures Distinct(s) && x !in s ==> Distinct(s + [x])
  {
  }

  lemma SetPop(s: seq<string>)
    requires s != [] && Distinct(s)
    ensures Set(s[..|s| - 1]) == Set(s) - {s[|s| - 1]}
    ensures Distinct(s[..|s| - 1]) && s[|s| - 1] !in s[..|s| - 1]
  {
    var k := |s| - 1;
    forall x ensures x in s[..k] <==> x in s && x != s[k] {
      if x in s && x != s[k] {
        var i :| 0 <= i < |s| && s[i] == x;
        assert s[..k][i] == x;
      }
    }
  }

  lemma LinkedPrefix(path: seq<string>, k: nat, edges: seq<Edge>)
    requires k <= |path| && Linked(path, edges)
    ensures Linked(path[..k], edges)
  {
    hide Joined;
  }

  lemma LeaveKeepsPath(root: string, w: Walk, oid: string)
    requires PathOk(root, w) && w.path != [] && w.path[|w.path| - 1] == oid
    requires w.nodes.Keys == w.active + Set(w.finished)
    ensures var n := Leave(w, oid);
            && PathOk(root, n) && n.path == w.path[..|w.path| - 1]
            && n.nodes.Keys == n.active + Set(n.finished)
  {
    hide Joined, Linked, Distinct;
    SetPop(w.path);
    SetPush(w.finished, oid);
    LinkedPrefix(w.path, |w.path| - 1, w.edges);
    assert oid in w.path;
  }

  lemma LeaveKeepsShape(l: Limits, root: string, w: Walk, oid: string)
    requires Shape(l, root, w) && w.stack != [] && w.stack[|w.stack| - 1] == Exit(oid)
    ensures Shape(l, root, Leave(w.(stack := w.stack[..|w.stack| - 1]), oid))
  {
    hide Continues, RealCycle, Joined, Linked, PathOk;
    LeaveKeepsPath(root, w, oid);
    PathOkIgnoresStack(root, Leave(w, oid), Leave(w.(stack := w.stack[..|w.stack| - 1]), oid));
  }

  lemma PathOkIgnoresStack(root: string, w: Walk, n: Walk)
    requires PathOk(root, w)
    requires n.path == w.path && n.active == w.active && n.finished == w.finished && n.edges == w.edges
    ensures PathOk(root, n)
  {
    hide Linked, Distinct;
  }

  // ----- Declining -----

  lemma RealCyclesGrow(w: Walk, n: Walk, more: seq<Issue>)
    requires CyclesAreReal(w) && n.edges == w.edges && n.issues == w.issues + more
    requires forall i | i in more :: RealCycle(i, n.edges)
    ensures CyclesAreReal(n)
  {
    hide RealCycle;
  }

  /** Revisiting an active object along anything but a plain record reference closes a recorded cycle. */
  lemma CycleIsReal(root: string, w: Walk, v: Visit)
    requires PathOk(root, w) && Continues(root, v, w.path, w.edges) && v.oid in w.active
    ensures RealCycle(IssueFor(v, Cycle(CyclePath(w.path, v.oid))), w.edges)
  {
    hide Oid.ParseOid;
    var pos := PositionOf(w.path, v.oid);
    assert v.oid in w.path;
    var p := CyclePath(w.path, v.oid);
    var last := w.path[|w.path| - 1];
    assert Joined(w.edges, last, v.oid);
    forall i | 0 <= i < |p| - 1 ensures Joined(w.edges, p[i], p[i + 1]) {
      if i < |p| - 2 {
        assert p[i] == w.path[pos + i] && p[i + 1] == w.path[pos + i + 1];
      } else {
        assert p[i] == last;
      }
    }
  }

  lemma DeclineKeepsShape(l: Limits, root: string, w: Walk, v: Visit)
    requires Shape(l, root, w) && Continues(root, v, w.path, w.edges) && !Opens(l, w, v)
    ensures Shape(l, root, Decline(l, w, v))
  {
    hide Chain, Continues, CyclePath, Linked, Distinct, Meets;
    DeclineKeeps(l, w, v);
    var n := Decline(l, w, v);
    if v.depth <= l.maxDepth && v.oid in w.active && !(v.role.Some? && v.role.value.RecordReference?) {
      CycleIsReal(root, w, v);
    }
    DeclineIssues(l, w, v);
    RealCyclesGrow(w, n, n.issues[|w.issues|..]);
  }

  /** What a declined visit can add: one issue, and a cycle only in the one branch. */
  lemma DeclineIssues(l: Limits, w: Walk, v: Visit)
    ensures var n := Decline(l, w, v);
            && |w.issues| <= |n.issues|
            && n.issues == w.issues + n.issues[|w.issues|..]
            && (forall i | i in n.issues[|w.issues|..] && i.problem.Cycle? ::
                  i == IssueFor(v, Cycle(CyclePath(w.path, v.oid))) && v.oid in w.active
                  && v.depth <= l.maxDepth && !(v.role.Some? && v.role.value.RecordReference?))
  {
    hide CyclePath, Meets;
  }

  // ----- Opening -----

  /** The stored object a visit opens, when it is there and of the kind the visit expects. */
  predicate Opened(world: World, v: Visit) {
    v.oid in world.store && world.store[v.oid].Verified? && world.store[v.oid].content.kind == v.kind
  }

  function Fetched(world: World, l: Limits, w: Walk, v: Visit): Gathered {
    if Opened(world, v) then GatherAll(Remaining(l, w), NOTHING, Items(v.oid, world.store[v.oid].content)) else NOTHING
  }

  ghost predicate Extends(w: Walk, n: Walk) {
    && |w.issues| <= |n.issues| && n.issues[..|w.issues|] == w.issues
    && forall i | |w.issues| <= i < |n.issues| :: !n.issues[i].problem.Cycle?
  }

  /** Opening records the gathered references and owes a visit to each of them, once the budget allows. */
  ghost predicate OpenEffect(w: Walk, n: Walk, v: Visit, g: Gathered) {
    && n.edges == w.edges + EdgesOf(v.oid, g.refs)
    && n.bytes == w.bytes + g.charged
    && n.stack == w.stack + (if g.exceeded.Some? then [] else Reversed(Children(v, g.refs)))
    && Extends(w, n)
  }

  lemma OpenDoes(world: World, l: Limits, w: Walk, v: Visit)
    requires w.status.Running?
    ensures var n := Open(world, l, w, v);
            n.status.Aborted? || OpenEffect(w, n, v, Fetched(world, l, w, v))
  {
    hide Expand, SemanticsOf, Meets, Items, GatherAll;
    if Opened(world, v) {
      var obj := world.store[v.oid].content;
      var m := WithNode(Describe(w, v, obj), v, Present(obj.kind, obj.byteLen));
      ExpandDoes(l, m, v, obj);
      ExtendsTwice(w, m, Expand(l, m, v, obj));
    }
  }

  lemma ExtendsTwice(w: Walk, m: Walk, n: Walk)
    requires Extends(w, m) && Extends(m, n)
    ensures Extends(w, n)
  {
    assert n.issues[..|w.issues|] == n.issues[..|m.issues|][..|w.issues|];
    forall i | |w.issues| <= i < |n.issues| ensures !n.issues[i].problem.Cycle? {
      if i < |m.issues| { assert n.issues[i] == n.issues[..|m.issues|][i]; }
    }
  }

  lemma ExpandDoes(l: Limits, w: Walk, v: Visit, obj: Stored)
    ensures OpenEffect(w, Expand(l, w, v, obj), v, GatherAll(Remaining(l, w), NOTHING, Items(v.oid, obj)))
  {
    hide GatherAll, Items, Children, EdgesOf, Reversed, Remaining;
    var g := GatherAll(Remaining(l, w), NOTHING, Items(v.oid, obj));
    RefIssuesAreNoCycles(v.oid, g.refs);
  }

  lemma {:induction false} RefIssuesAreNoCycles(source: string, refs: seq<Reference>)
    ensures forall i | 0 <= i < |RefIssues(source, refs)| :: !RefIssues(source, refs)[i].problem.Cycle?
  {
    hide Oid.ParseOid, Leads;
    if refs != [] { RefIssuesAreNoCycles(source, refs[1..]); }
  }

  lemma LinkedGrows(path: seq<string>, edges: seq<Edge>, more: seq<Edge>)
    requires Linked(path, edges)
    ensures Linked(path, edges + more)
  {
    forall i | 0 <= i < |path| - 1 ensures Joined(edges + more, path[i], path[i + 1]) {
      assert Joined(edges, path[i], path[i + 1]);
      var k :| 0 <= k < |edges| && edges[k].source == path[i] && edges[k].target == path[i + 1];
      assert (edges + more)[k] == edges[k];
    }
  }

  lemma LinkedExtends(root: string, path: seq<string>, edges: seq<Edge>, v: Visit)
    requires Linked(path, edges) && Continues(root, v, path, edges)
    ensures Linked(path + [v.oid], edges)
  {
    hide Oid.ParseOid;
    var p := path + [v.oid];
    forall i | 0 <= i < |p| - 1 ensures Joined(edges, p[i], p[i + 1]) {
      if i < |path| - 1 { assert Joined(edges, path[i], path[i + 1]); }
    }
  }

  lemma OpenKeepsPath(root: string, w: Walk, v: Visit, n: Walk, more: seq<Edge>)
    requires PathOk(root, w) && Continues(root, v, w.path, w.edges)
    requires v.oid !in w.active && v.oid !in w.finished
    requires n.active == w.active + {v.oid} && n.path == w.path + [v.oid] && n.finished == w.finished
    requires n.edges == w.edges + more
    ensures PathOk(root, n)
  {
    hide Joined, Linked, Distinct;
    SetPush(w.path, v.oid);
    LinkedExtends(root, w.path, w.edges, v);
    LinkedGrows(n.path, w.edges, more);
    assert v.oid !in w.path;
  }

  lemma {:induction false} ChildrenContinue(root: string, v: Visit, refs: seq<Reference>, path: seq<string>,
                                            edges: seq<Edge>)
    requires path != [] && path[|path| - 1] == v.oid && v.depth + 1 == |path|
    requires forall i | 0 <= i < |refs| :: EdgeOf(v.oid, refs[i]) in edges
    ensures forall i | 0 <= i < |Children(v, refs)| :: Continues(root, Children(v, refs)[i], path, edges)
  {
    hide Oid.ParseOid;
    if refs != [] {
      assert forall i | 0 <= i < |refs[1..]| :: refs[1..][i] == refs[i + 1];
      ChildrenContinue(root, v, refs[1..], path, edges);
    }
  }

  lemma OpenKeepsChain(root: string, w: Walk, v: Visit, n: Walk, g: Gathered)
    requires Chain(root, w.stack, w.path, w.edges) && Continues(root, v, w.path, w.edges)
    requires n.path == w.path + [v.oid] && OpenEffect(Activate(w, v), n, v, g)
    ensures Chain(root, n.stack, n.path, n.edges)
  {
    hide Chain, Reversed, Children, Extends;
    var more := EdgesOf(v.oid, g.refs);
    ChainExit(root, w.stack, w.path, w.edges, v.oid);
    ChainGrows(root, w.stack + [Exit(v.oid)], n.path, w.edges, more);
    if g.exceeded.None? {
      forall i | 0 <= i < |g.refs| ensures EdgeOf(v.oid, g.refs[i]) in n.edges {
        assert EdgeOf(v.oid, g.refs[i]) == more[i];
        assert n.edges[|w.edges| + i] == more[i];
      }
      DepthOf(root, w, v);
      ChildrenContinue(root, v, g.refs, n.path, n.edges);
      ChainPush(root, w.stack + [Exit(v.oid)], n.path, n.edges, Children(v, g.refs));
    } else {
      assert n.stack == w.stack + [Exit(v.oid)];
    }
  }

  lemma DepthOf(root: string, w: Walk, v: Visit)
    requires Continues(root, v, w.path, w.edges)
    ensures v.depth == |w.path|
  {
    hide Oid.ParseOid;
  }

  lemma OldCyclesStayReal(w: Walk, n: Walk, more: seq<Edge>)
    requires CyclesAreReal(w) && n.edges == w.edges + more && Extends(w, n)
    ensures CyclesAreReal(n)
  {
    hide Linked;
    forall i | i in n.issues ensures RealCycle(i, n.edges) {
      if i.problem.Cycle? {
        var k :| 0 <= k < |n.issues| && n.issues[k] == i;
        assert k < |w.issues| && n.issues[..|w.issues|][k] == w.issues[k];
        assert RealCycle(w.issues[k], w.edges);
        LinkedGrows(i.problem.path, w.edges, more);
      }
    }
  }

  lemma FetchedInBudget(world: World, l: Limits, w: Walk, v: Visit)
    requires InBudget(l, w)
    ensures var g := Fetched(world, l, w, v);
            |w.edges| + |g.refs| <= l.maxEdges && w.bytes + g.charged <= MAX_GRAPH_REFERENCE_BYTES
  {
    hide Items, GatherAll;
    if Opened(world, v) {
      BudgetIsKept(Remaining(l, w), NOTHING, Items(v.oid, world.store[v.oid].content));
    }
  }

  lemma OpenKeepsShape(world: World, l: Limits, root: string, w: Walk, v: Visit)
    requires w.status.Running? && Shape(l, root, w) && Continues(root, v, w.path, w.edges) && Opens(l, w, v)
    ensures var n := Open(world, l, Activate(w, v), v); n.status.Aborted? || Shape(l, root, n)
  {
    hide Open, Chain, PathOk, CyclesAreReal, Continues, Fetched, Extends;
    var a := Activate(w, v);
    var n := Open(world, l, a, v);
    if !n.status.Aborted? {
      OpenAddsNode(world, l, a, v);
      OpenDoes(world, l, a, v);
      var g := Fetched(world, l, a, v);
      var more := EdgesOf(v.oid, g.refs);
      OpenKeepsPath(root, w, v, n, more);
      OpenKeepsChain(root, w, v, n, g);
      ActivateKeepsCycles(w, v);
      OldCyclesStayReal(a, n, more);
      FetchedInBudget(world, l, a, v);
      OneMoreNode(l, w, n, v.oid);
    }
  }

  lemma ActivateKeepsCycles(w: Walk, v: Visit)
    requires CyclesAreReal(w)
    ensures CyclesAreReal(Activate(w, v))
  {
    hide RealCycle;
  }

  /** One step keeps the shape. */
  lemma StepKeepsShape(world: World, l: Limits, root: string, w: Walk)
    requires Live(w) && Shape(l, root, w)
    ensures Step(world, l, w).status.Aborted? || Shape(l, root, Step(world, l, w))
  {
    hide Open, Decline, Leave, PathOk, CyclesAreReal, Continues;
    var k := |w.stack| - 1;
    match w.stack[k]
    case Exit(oid) => LeaveKeepsShape(l, root, w, oid);
    case Enter(v) =>
      var p := w.(stack := w.stack[..k]);
      ShapePops(l, root, w, v);
      if Opens(l, p, v) { OpenKeepsShape(world, l, root, p, v); } else { DeclineKeepsShape(l, root, p, v); }
  }

  lemma ShapePops(l: Limits, root: string, w: Walk, v: Visit)
    requires w.stack != [] && Shape(l, root, w) && w.stack[|w.stack| - 1] == Enter(v)
    ensures Shape(l, root, w.(stack := w.stack[..|w.stack| - 1])) && Continues(root, v, w.path, w.edges)
  {
    hide RealCycle, Continues, Linked, Distinct;
    PathOkIgnoresStack(root, w, w.(stack := w.stack[..|w.stack| - 1]));
  }

  /** The final state of a walk that was not aborted has the shape. */
  lemma {:induction false} RunKeepsShape(world: World, l: Limits, root: string, w: Walk)
    requires Counted(l, w) && Shape(l, root, w)
    ensures Run(world, l, w).status.Aborted? || Shape(l, root, Run(world, l, w))
    decreases l.maxObjects - |w.nodes|, |w.stack|
  {
    hide Shape, Step;
    if Live(w) {
      StepAdvances(world, l, w);
      StepKeepsShape(world, l, root, w);
      var n := Step(world, l, w);
      if n.status.Running? { RunKeepsShape(world, l, root, n); }
    }
  }

  /** Every verdict stays in budget, and every cycle it reports is a closed path of edges it recorded. */
  lemma ReportsAreBoundedAndCyclesReal(world: World, l: Limits, root: string)
    requires Oid.ParseOid(root) == Some(Oid.Commit) && Verify(world, l, root).Reported?
    ensures var r := Verify(world, l, root).report;
            && |r.nodes| <= l.maxObjects && |r.edges| <= l.maxEdges
            && Run(world, l, Initial(root)).bytes <= MAX_GRAPH_REFERENCE_BYTES
            && forall i | i in r.issues :: RealCycle(i, r.edges)
  {
    hide Oid.ParseOid, Linked, Chain, PathOk, Run;
    ShapeStarts(l, root);
    RunKeepsShape(world, l, root, Initial(root));
  }
}
