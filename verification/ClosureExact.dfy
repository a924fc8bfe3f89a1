/**
 * What a report can say of a sound closure, on every store and under every limit: nothing but
 * dependency cycles and the limits that cut it short.
 */
module ClosureExact {
  import opened Optional
  import opened References
  import opened ClosureWalk
  import opened ClosureComplete
  import opened ClosureSufficient
  import Oid

  predicate Cut(issues: seq<Issue>) { exists i | i in issues :: i.problem.ResourceLimit? }

  /** Only cycles and spent limits are reported, and a limit exactly when the walk was cut short. */
  predicate Blameless(issues: seq<Issue>, truncated: bool) {
    && (forall i | i in issues :: i.problem.Cycle? || i.problem.ResourceLimit?)
    && (truncated <==> Cut(issues))
  }

  /** A visit to an object of the closure, under a constraint that holds. */
  ghost predicate Due(world: World, root: string, v: Visit) {
    && Reachable(world, root, v.oid) && Oid.ParseOid(v.oid) == Some(v.kind) && ConstraintHolds(world, RefOf(v))
    && (v.depth == 0 ==> v.oid == root)
  }

  ghost predicate AllDue(world: World, root: string, stack: seq<WorkItem>) {
    forall i | 0 <= i < |stack| && stack[i].Enter? :: Due(world, root, stack[i].visit)
  }

  predicate TrueSemantics(world: World, semantics: map<string, Semantics>) {
    forall x | x in semantics :: Readable(world, x) && semantics[x] == SemanticsAt(world, x)
  }

  ghost predicate Benign(world: World, root: string, w: Walk) {
    && !w.status.Aborted? && Blameless(w.issues, w.truncated)
    && AllDue(world, root, w.stack) && TrueSemantics(world, w.semantics)
  }

  lemma BenignStarts(world: World, root: string)
    requires SoundClosure(world, root)
    ensures Benign(world, root, Initial(root))
  {
    hide Reachable, Sound, RefsAt, Readable, Oid.ParseOid;
    RootIsReachable(world, root);
  }

  lemma BlamelessMore(issues: seq<Issue>, truncated: bool, i: Issue, cut: bool)
    requires Blameless(issues, truncated) && (i.problem.Cycle? || i.problem.ResourceLimit?)
    requires cut <==> truncated || i.problem.ResourceLimit?
    ensures Blameless(issues + [i], cut)
  {
    var all := issues + [i];
    assert all[|issues|] == i;
    if j :| j in issues && j.problem.ResourceLimit? { assert j in all; }
  }

  // ----- Visits that open nothing -----

  lemma NothingRaised(world: World, root: string, semantics: map<string, Semantics>, v: Visit)
    requires TrueSemantics(world, semantics) && Due(world, root, v)
    ensures ConstraintIssues(semantics, v) == []
  {
    hide Reachable, PresentAt, SemanticsOf, Meets, Oid.ParseOid;
  }

  lemma DeclineStaysBenign(world: World, l: Limits, root: string, w: Walk, v: Visit)
    requires Benign(world, root, w) && Due(world, root, v)
    ensures Benign(world, root, Decline(l, w, v))
  {
    hide AllDue, TrueSemantics, Due, ConstraintIssues, CyclePath, Blameless;
    NothingRaised(world, root, w.semantics, v);
    assert w.issues + [] == w.issues;
    var depth := IssueFor(v, ResourceLimit("depth", l.maxDepth));
    var objects := IssueFor(v, ResourceLimit("objects", l.maxObjects));
    BlamelessMore(w.issues, w.truncated, depth, true);
    BlamelessMore(w.issues, w.truncated, objects, true);
    BlamelessMore(w.issues, w.truncated, IssueFor(v, Cycle(CyclePath(w.path, v.oid))), w.truncated);
  }

  // ----- Opening a sound object -----

  /** Of items that are all references an extraction reports nothing malformed and takes only references of theirs. */
  lemma {:induction false} GathersReferences(b: Budget, g: Gathered, items: seq<Item>)
    requires AllRefs(items)
    ensures GatherAll(b, g, items).bad == g.bad
    ensures forall r | r in GatherAll(b, g, items).refs :: r in g.refs || r in RefsOf(items)
    decreases items
  {
    if items != [] { GathersReferences(b, Gather(b, g, items[0]), items[1..]); }
  }

  lemma {:induction false} ChildrenAreDue(world: World, root: string, v: Visit, refs: seq<Reference>)
    requires Reachable(world, root, v.oid)
    requires forall r | r in refs :: r in RefsAt(world, v.oid) && ConstraintHolds(world, r)
    ensures forall i | 0 <= i < |Children(v, refs)| :: Due(world, root, Children(v, refs)[i])
    decreases refs
  {
    hide Reachable, RefsAt, ConstraintHolds, Oid.ParseOid;
    if refs != [] {
      var r := refs[0];
      assert r in refs && forall x | x in refs[1..] :: x in refs;
      ChildrenAreDue(world, root, v, refs[1..]);
      ReferenceRefers(world, v.oid, r);
      ReachableExtends(world, root, v.oid, r.target);
      if Leads(r) { ChildIsDue(world, root, v, r); }
    }
  }

  lemma ChildIsDue(world: World, root: string, v: Visit, r: Reference)
    requires Reachable(world, root, r.target) && ConstraintHolds(world, r) && Leads(r)
    ensures Due(world, root, VisitOf(v, r))
  {
    hide Reachable, Readable, Oid.ParseOid;
  }

  lemma {:induction false} PushedAreDue(world: World, root: string, stack: seq<WorkItem>, vs: seq<Visit>)
    requires AllDue(world, root, stack) && forall i | 0 <= i < |vs| :: Due(world, root, vs[i])
    ensures AllDue(world, root, stack + Reversed(vs))
    decreases vs
  {
    hide Due;
    if vs == [] {
      assert stack + Reversed(vs) == stack;
    } else {
      PushedAreDue(world, root, stack, vs[1..]);
      assert stack + Reversed(vs) == stack + Reversed(vs[1..]) + [Enter(vs[0])];
    }
  }

  lemma ExpandStaysBenign(world: World, l: Limits, root: string, w: Walk, v: Visit)
    requires SoundClosure(world, root) && Benign(world, root, w)
    requires Reachable(world, root, v.oid) && PresentAt(world, v.oid)
    ensures Benign(world, root, Expand(l, w, v, world.store[v.oid].content))
  {
    hide Items, GatherAll, RefsOf, Leads, Remaining, Children, EdgesOf, Reversed, RefIssues, AllDue, TrueSemantics,
         Blameless, Reachable, ConstraintHolds, Oid.ParseOid, AllRefs;
    var obj := world.store[v.oid].content;
    var items := Items(v.oid, obj);
    var g := GatherAll(Remaining(l, w), NOTHING, items);
    assert Sound(world, v.oid);
    GathersReferences(Remaining(l, w), NOTHING, items);
    RefsLead(world, v.oid, g.refs);
    LeadingRaisesNothing(v.oid, g.refs);
    assert BadIssues(v.oid, []) == [] && w.issues + [] + [] == w.issues;
    ChildrenAreDue(world, root, v, g.refs);
    PushedAreDue(world, root, w.stack, Children(v, g.refs));
    if g.exceeded.Some? {
      BlamelessMore(w.issues, w.truncated, Issue(v.oid, None, None, Exceeded(l, g.exceeded.value)), true);
    }
  }

  lemma RefsLead(world: World, x: string, refs: seq<Reference>)
    requires Sound(world, x) && PresentAt(world, x) && forall r | r in refs :: r in RefsAt(world, x)
    ensures forall i | 0 <= i < |refs| :: Leads(refs[i])
  {
    hide PresentAt, Leads, RefsAt, Items, AllRefs;
    forall i | 0 <= i < |refs| ensures Leads(refs[i]) {
      assert refs[i] in refs;
    }
  }

  lemma DescribeStaysTrue(world: World, root: string, w: Walk, v: Visit)
    requires TrueSemantics(world, w.semantics) && Due(world, root, v) && PresentAt(world, v.oid)
    ensures var n := Describe(w, v, world.store[v.oid].content);
            TrueSemantics(world, n.semantics) && n.issues == w.issues && n.truncated == w.truncated
            && n.stack == w.stack && n.status == w.status
  {
    hide Reachable, Oid.ParseOid, SemanticsOf, Meets, ConstraintIssues;
    var obj := world.store[v.oid].content;
    if obj.kind.Record? && obj.body.Some? {
      NothingRaised(world, root, w.semantics[v.oid := SemanticsOf(obj.body.value)], v);
    }
  }

  lemma OpenStaysBenign(world: World, l: Limits, root: string, w: Walk, v: Visit)
    requires SoundClosure(world, root) && Benign(world, root, w) && Due(world, root, v)
    ensures Benign(world, root, Open(world, l, w, v))
  {
    hide Expand, Describe, AllDue, TrueSemantics, Blameless, Reachable, ConstraintHolds, Oid.ParseOid, AllRefs, RefsOf,
         Items, Leads;
    assert Sound(world, v.oid);
    if PresentAt(world, v.oid) {
      var obj := world.store[v.oid].content;
      DescribeStaysTrue(world, root, w, v);
      ExpandStaysBenign(world, l, root, WithNode(Describe(w, v, obj), v, Present(obj.kind, obj.byteLen)), v);
    }
  }

  // ----- The whole walk -----

  lemma StepStaysBenign(world: World, l: Limits, root: string, w: Walk)
    requires SoundClosure(world, root) && Benign(world, root, w) && w.stack != []
    ensures Benign(world, root, Step(world, l, w))
  {
    hide Open, Decline, Due, TrueSemantics, Blameless, SoundClosure;
    var k := |w.stack| - 1;
    var p := w.(stack := w.stack[..k]);
    assert Benign(world, root, p);
    match w.stack[k]
    case Exit(oid) =>
    case Enter(v) =>
      assert Due(world, root, v);
      if Opens(l, p, v) {
        assert AllDue(world, root, Activate(p, v).stack);
        OpenStaysBenign(world, l, root, Activate(p, v), v);
      } else {
        DeclineStaysBenign(world, l, root, p, v);
      }
  }

  lemma {:induction false} RunStaysBenign(world: World, l: Limits, root: string, w: Walk)
    requires Counted(l, w) && SoundClosure(world, root) && Benign(world, root, w)
    ensures Benign(world, root, Run(world, l, w))
    decreases l.maxObjects - |w.nodes|, |w.stack|
  {
    hide SoundClosure, Benign, Step;
    if Live(w) {
      StepAdvances(world, l, w);
      StepStaysBenign(world, l, root, w);
      var n := Step(world, l, w);
      if n.status.Running? { RunStaysBenign(world, l, root, n); }
    }
  }

  /**
   * On every store and under every limit: a sound closure is always reported, with no issues besides
   * cycles and spent limits, and a spent limit exactly when the report is truncated.
   */
  lemma SoundClosureIsBlameless(world: World, l: Limits, root: string)
    requires SoundClosure(world, root)
    ensures Verify(world, l, root).Reported?
    ensures Blameless(Verify(world, l, root).report.issues, Verify(world, l, root).report.truncated)
  {
    hide Run, Blameless, AllDue, TrueSemantics, Reachable, Sound, RefsAt, ConstraintHolds, PresentAt, Oid.ParseOid;
    BenignStarts(world, root);
    RunStaysBenign(world, l, root, Initial(root));
  }

  predicate ReportsCycle(r: Report) { exists i | i in r.issues :: i.problem.Cycle? }

  /**
   * So, with no condition on the store, its references or the limits: a report is complete if and
   * only if the closure is sound and the report neither was cut short nor names a cycle.
   */
  lemma CompleteExactlyWhenSound(world: World, l: Limits, root: string)
    ensures Verify(world, l, root).Reported? && Verify(world, l, root).report.Complete() <==>
              && SoundClosure(world, root) && Verify(world, l, root).Reported?
              && !Verify(world, l, root).report.truncated && !ReportsCycle(Verify(world, l, root).report)
  {
    hide Verify, SoundClosure;
    var r := Verify(world, l, root);
    if r.Reported? && r.report.Complete() { CompleteIsSound(world, l, root); }
    if SoundClosure(world, root) {
      SoundClosureIsBlameless(world, l, root);
      if r.report.issues != [] { assert r.report.issues[0] in r.report.issues; }
    }
  }
}
