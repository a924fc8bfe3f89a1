/** How the limits of a closure walk matter: they only ever cut a walk short, and large enough ones never do. */
module ClosureLimits {
  import opened Optional
  import opened References
  import opened ClosureWalk
  import opened ClosureShape
  import Oid

  predicate Within(l: Limits, m: Limits) {
    l.maxObjects <= m.maxObjects && l.maxEdges <= m.maxEdges && l.maxDepth <= m.maxDepth
  }

  // ----- Larger limits -----

  lemma ExpandUnderLarger(l: Limits, m: Limits, w: Walk, v: Visit, obj: Stored)
    requires Within(l, m) && !Expand(l, w, v, obj).truncated
    ensures Expand(m, w, v, obj) == Expand(l, w, v, obj)
  {
    hide Items, GatherAll, BadIssues, RefIssues, Children, EdgesOf, Reversed;
    LargerBudgetSame(Remaining(l, w), Remaining(m, w), NOTHING, Items(v.oid, obj));
  }

  lemma OpenUnderLarger(world: World, l: Limits, m: Limits, w: Walk, v: Visit)
    requires Within(l, m) && !Open(world, l, w, v).truncated
    ensures Open(world, m, w, v) == Open(world, l, w, v)
  {
    hide Expand, Absent, Describe;
    if Opened(world, v) {
      var obj := world.store[v.oid].content;
      ExpandUnderLarger(l, m, WithNode(Describe(w, v, obj), v, Present(obj.kind, obj.byteLen)), v, obj);
    }
  }

  lemma StepUnderLarger(world: World, l: Limits, m: Limits, w: Walk)
    requires Within(l, m) && w.stack != [] && !Step(world, l, w).truncated
    ensures Step(world, m, w) == Step(world, l, w)
  {
    hide Open, Leave, CyclePath, ConstraintIssues;
    var k := |w.stack| - 1;
    if w.stack[k].Enter? {
      var p, v := w.(stack := w.stack[..k]), w.stack[k].visit;
      if Opens(l, p, v) { OpenUnderLarger(world, l, m, Activate(p, v), v); }
    }
  }

  lemma OpenStaysTruncated(world: World, l: Limits, w: Walk, v: Visit)
    requires w.truncated
    ensures Open(world, l, w, v).truncated
  {
    hide GatherAll, Items, BadIssues, RefIssues, Children, EdgesOf, Reversed, Remaining, ConstraintIssues, SemanticsOf;
  }

  lemma StepStaysTruncated(world: World, l: Limits, w: Walk)
    requires w.stack != [] && w.truncated
    ensures Step(world, l, w).truncated
  {
    hide Open, CyclePath, ConstraintIssues;
    var k := |w.stack| - 1;
    if w.stack[k].Enter? {
      OpenStaysTruncated(world, l, Activate(w.(stack := w.stack[..k]), w.stack[k].visit), w.stack[k].visit);
    }
  }

  lemma {:induction false} RunStaysTruncated(world: World, l: Limits, w: Walk)
    requires Counted(l, w) && w.truncated
    ensures Run(world, l, w).truncated
    decreases l.maxObjects - |w.nodes|, |w.stack|
  {
    hide Step;
    if Live(w) {
      StepAdvances(world, l, w);
      StepStaysTruncated(world, l, w);
      var n := Step(world, l, w);
      if n.status.Running? { RunStaysTruncated(world, l, n); }
    }
  }

  lemma {:induction false} RunUnderLarger(world: World, l: Limits, m: Limits, w: Walk)
    requires Within(l, m) && Counted(l, w) && !Run(world, l, w).truncated
    ensures Counted(m, w) && Run(world, m, w) == Run(world, l, w)
    decreases l.maxObjects - |w.nodes|, |w.stack|
  {
    hide Step;
    if Live(w) {
      StepAdvances(world, l, w);
      var n := Step(world, l, w);
      if n.truncated && n.status.Running? { RunStaysTruncated(world, l, n); }
      StepUnderLarger(world, l, m, w);
      if n.status.Running? { RunUnderLarger(world, l, m, n); }
    }
  }

  /** A report that no limit cut short, complete or not, is the same under any larger limits. */
  lemma LargerLimitsSameReport(world: World, l: Limits, m: Limits, root: string)
    requires Within(l, m) && Verify(world, l, root).Reported? && !Verify(world, l, root).report.truncated
    ensures Verify(world, m, root) == Verify(world, l, root)
  {
    hide Run, Oid.ParseOid;
    if Oid.ParseOid(root) == Some(Oid.Commit) {
      RunUnderLarger(world, l, m, Initial(root));
    }
  }
}
