/** The converse: where no dependency lies on a cycle, a sound closure within the limits is always reported complete. */
module ClosureSufficient {
  import opened Optional
  import opened References
  import opened ClosureWalk
  import opened ClosureShape
  import opened ClosureComplete
  import Oid

  /** Everything reachable is sound, and every constraint on it holds. */
  ghost predicate SoundClosure(world: World, root: string) {
    && Oid.ParseOid(root) == Some(Oid.Commit) && PresentAt(world, root)
    && forall x | Reachable(world, root, x) ::
         Sound(world, x) && forall r | r in RefsAt(world, x) :: ConstraintHolds(world, r)
  }

  /** No reference goes up in rank, and all but the plain ones go down: only plain references can form cycles. */
  ghost predicate Ranked(world: World, root: string, rank: string -> nat) {
    forall a, r | Reachable(world, root, a) && r in RefsAt(world, a) ::
      rank(r.target) <= rank(a) && (!Plain(r) ==> rank(r.target) < rank(a))
  }

  ghost predicate Steps(world: World, p: seq<string>) { forall i | 0 <= i < |p| - 1 :: Refers(world, p[i], p[i + 1]) }

  /** A path from the root that repeats nothing before its last object is no longer than the depth limit. */
  ghost predicate Shallow(world: World, l: Limits, root: string) {
    forall p | Steps(world, p) && p != [] && p[0] == root && Distinct(p[..|p| - 1]) :: |p| - 1 <= l.maxDepth
  }

  function Count(world: World, x: string): nat { |RefsAt(world, x)| }

  function Cost(world: World, x: string): nat { if PresentAt(world, x) then CostOf(ItemsAt(world, x)) else 0 }

  function CountOf(world: World, order: seq<string>, known: set<string>): nat {
    if order == [] then 0
    else (if order[0] in known then Count(world, order[0]) else 0) + CountOf(world, order[1..], known)
  }

  function CostsOf(world: World, order: seq<string>, known: set<string>): nat {
    if order == [] then 0
    else (if order[0] in known then Cost(world, order[0]) else 0) + CostsOf(world, order[1..], known)
  }

  /** The limits hold the whole closure, listed without repetition in `order`. */
  ghost predicate Enough(world: World, l: Limits, root: string, order: seq<string>) {
    && Distinct(order) && (forall x | Reachable(world, root, x) :: x in order)
    && |order| <= l.maxObjects
    && CountOf(world, order, Set(order)) <= l.maxEdges
    && CostsOf(world, order, Set(order)) <= MAX_GRAPH_REFERENCE_BYTES
    && Shallow(world, l, root)
  }

  // ----- Sums over the objects already entered -----

  lemma {:induction false} SumsIgnore(world: World, order: seq<string>, known: set<string>, x: string)
    requires x !in order
    ensures CountOf(world, order, known + {x}) == CountOf(world, order, known)
    ensures CostsOf(world, order, known + {x}) == CostsOf(world, order, known)
  {
    hide Count, Cost;
    if order != [] { SumsIgnore(world, order[1..], known, x); }
  }

  lemma {:induction false} SumsAdd(world: World, order: seq<string>, known: set<string>, x: string)
    requires Distinct(order) && x in order && x !in known
    ensures CountOf(world, order, known + {x}) == CountOf(world, order, known) + Count(world, x)
    ensures CostsOf(world, order, known + {x}) == CostsOf(world, order, known) + Cost(world, x)
  {
    hide Count, Cost;
    assert forall i, j | 0 <= i < j < |order[1..]| :: order[1..][i] == order[i + 1] && order[1..][j] == order[j + 1];
    if order[0] == x {
      assert forall i | 0 <= i < |order[1..]| :: order[1..][i] == order[i + 1];
      SumsIgnore(world, order[1..], known, x);
    } else {
      SumsAdd(world, order[1..], known, x);
    }
  }

  lemma {:induction false} SumsGrow(world: World, order: seq<string>, known: set<string>, more: set<string>)
    requires known <= more
    ensures CountOf(world, order, known) <= CountOf(world, order, more)
    ensures CostsOf(world, order, known) <= CostsOf(world, order, more)
  {
    hide Count, Cost;
    if order != [] { SumsGrow(world, order[1..], known, more); }
  }

  // ----- A sound object opens cleanly -----

  lemma {:induction false} AllRefsCount(items: seq<Item>)
    requires AllRefs(items)
    ensures |RefsOf(items)| == |items|
  {
    if items != [] { AllRefsCount(items[1..]); }
  }

  lemma {:induction false} LeadingRaisesNothing(source: string, refs: seq<Reference>)
    requires forall i | 0 <= i < |refs| :: Leads(refs[i])
    ensures RefIssues(source, refs) == []
  {
    hide Leads;
    if refs != [] { LeadingRaisesNothing(source, refs[1..]); }
  }

  lemma ExpandsCleanly(l: Limits, w: Walk, v: Visit, obj: Stored)
    requires Clean(w) && w.status.Running? && AllRefs(Items(v.oid, obj))
    requires forall i | 0 <= i < |RefsOf(Items(v.oid, obj))| :: Leads(RefsOf(Items(v.oid, obj))[i])
    requires |RefsOf(Items(v.oid, obj))| <= Remaining(l, w).maxEdges
             && CostOf(Items(v.oid, obj)) <= Remaining(l, w).maxBytes
    ensures var n := Expand(l, w, v, obj);
            && Clean(n) && n.status.Running?
            && n.edges == w.edges + EdgesOf(v.oid, RefsOf(Items(v.oid, obj)))
            && n.bytes == w.bytes + CostOf(Items(v.oid, obj))
  {
    hide Items, RefsOf, CostOf, GatherAll, Leads, Remaining, Children, EdgesOf, Reversed, AllRefs, RefIssues;
    var items := Items(v.oid, obj);
    AllRefsCount(items);
    SufficientBudget(Remaining(l, w), NOTHING, items);
    assert [] + RefsOf(items) == RefsOf(items);
    LeadingRaisesNothing(v.oid, RefsOf(items));
    assert BadIssues(v.oid, []) == [];
  }

  ghost predicate Fits(world: World, l: Limits, w: Walk, x: string) {
    |w.edges| + Count(world, x) <= l.maxEdges && w.bytes + Cost(world, x) <= MAX_GRAPH_REFERENCE_BYTES
  }

  ghost predicate OpensCleanly(world: World, w: Walk, n: Walk, x: string) {
    && Clean(n) && n.status.Running?
    && n.edges == w.edges + EdgesOf(x, RefsAt(world, x)) && n.bytes == w.bytes + Cost(world, x)
  }

  lemma PresentOpensCleanly(world: World, l: Limits, w: Walk, v: Visit)
    requires Clean(w) && w.status.Running? && Oid.ParseOid(v.oid) == Some(v.kind)
    requires PresentAt(world, v.oid) && Sound(world, v.oid) && ConstraintHolds(world, RefOf(v))
             && Fits(world, l, w, v.oid)
    ensures OpensCleanly(world, w, Open(world, l, w, v), v.oid)
  {
    hide Oid.ParseOid, Expand, Items, SemanticsOf, Meets, AllRefs, RefsOf, CostOf, Leads, EdgesOf;
    var obj := world.store[v.oid].content;
    var m := WithNode(Describe(w, v, obj), v, Present(obj.kind, obj.byteLen));
    ExpandsCleanly(l, m, v, obj);
  }

  lemma SoundOpensCleanly(world: World, l: Limits, w: Walk, v: Visit)
    requires Clean(w) && w.status.Running? && Oid.ParseOid(v.oid) == Some(v.kind)
    requires Sound(world, v.oid) && ConstraintHolds(world, RefOf(v)) && Fits(world, l, w, v.oid)
    requires v.depth == 0 && v.kind.Commit? ==> PresentAt(world, v.oid)
    ensures OpensCleanly(world, w, Open(world, l, w, v), v.oid)
  {
    hide Oid.ParseOid, Expand, Items, SemanticsOf, Meets, AllRefs, RefsOf, CostOf, Leads, ConstraintHolds, Describe;
    if PresentAt(world, v.oid) { PresentOpensCleanly(world, l, w, v); }
  }

  // ----- A walk over a sound closure -----

  /** A path of references from the root along which ranks never rise. */
  ghost predicate Descending(world: World, path: seq<string>, root: string, rank: string -> nat) {
    && (path != [] ==> path[0] == root) && Steps(world, path)
    && (forall i, j | 0 <= i < j < |path| :: rank(path[j]) <= rank(path[i]))
  }

  lemma DescendingPops(world: World, path: seq<string>, root: string, rank: string -> nat)
    requires Descending(world, path, root, rank) && path != []
    ensures Descending(world, path[..|path| - 1], root, rank)
  {
    hide Refers;
    var init := path[..|path| - 1];
    forall i | 0 <= i < |init| - 1 ensures Refers(world, init[i], init[i + 1]) {
      assert Refers(world, path[i], path[i + 1]);
    }
  }

  ghost predicate Ready(world: World, l: Limits, root: string, order: seq<string>, rank: string -> nat, w: Walk) {
    && Clean(w) && w.status.Running? && Shape(l, root, w) && Progress(world, root, w)
    && |w.edges| == CountOf(world, order, w.nodes.Keys)
    && w.bytes == CostsOf(world, order, w.nodes.Keys)
    && Descending(world, w.path, root, rank)
  }

  /** The conditions the converse starts from. */
  ghost predicate Given(world: World, l: Limits, root: string, order: seq<string>, rank: string -> nat) {
    SoundClosure(world, root) && Ranked(world, root, rank) && Enough(world, l, root, order)
  }

  lemma ReadyStarts(world: World, l: Limits, root: string, order: seq<string>, rank: string -> nat)
    requires Given(world, l, root, order, rank)
    ensures Ready(world, l, root, order, rank, Initial(root))
  {
    hide Shape, Progress, Oid.ParseOid, Enough, Ranked;
    ShapeStarts(l, root);
    ProgressStarts(world, root);
    NothingCounted(world, order);
    assert Initial(root).nodes.Keys == {};
  }

  lemma {:induction false} NothingCounted(world: World, order: seq<string>)
    ensures CountOf(world, order, {}) == 0 && CostsOf(world, order, {}) == 0
  {
    hide Count, Cost;
    if order != [] { NothingCounted(world, order[1..]); }
  }

  /** A pending visit on top of the stack stands for a reference of the last active object. */
  lemma {:induction false} PendingIsReference(world: World, root: string, stack: seq<WorkItem>, path: seq<string>,
                                              edges: seq<Edge>, next: Option<string>, pending: set<Reference>,
                                              known: set<string>, done: set<string>)
    requires Chain(root, stack, path, edges) && Frames(world, stack, next, pending, known, done) && path != []
    ensures forall r | r in pending :: r in RefsAt(world, path[|path| - 1])
    decreases |stack|
  {
    hide Continues, Covered, RefsAt, RefOf;
    var k := |stack| - 1;
    if stack[k].Enter? {
      PendingIsReference(world, root, stack[..k], path, edges, next, pending + {RefOf(stack[k].visit)}, known, done);
    }
  }

  lemma TopVisitIsReference(world: World, l: Limits, root: string, w: Walk, v: Visit)
    requires w.stack != [] && w.stack[|w.stack| - 1] == Enter(v) && w.path != []
    requires Shape(l, root, w) && Progress(world, root, w)
    ensures RefOf(v) in RefsAt(world, w.path[|w.path| - 1])
  {
    hide Continues, Covered, RefsAt, RefOf, PathOk, CyclesAreReal, FinishedOk, NodesOk, SemanticsOk, EdgesOk, Owes;
    var rest := w.stack[..|w.stack| - 1];
    PendingIsReference(world, root, rest, w.path, w.edges, None, {} + {RefOf(v)}, w.nodes.Keys, Set(w.finished));
  }

  /** What is known of the visit about to be made. */
  ghost predicate Welcome(world: World, l: Limits, root: string, rank: string -> nat, w: Walk, v: Visit) {
    && Reachable(world, root, v.oid) && Sound(world, v.oid) && ConstraintHolds(world, RefOf(v))
    && (v.oid in w.active ==> v.role.Some? && v.role.value.RecordReference?) && v.depth <= l.maxDepth
    && Descending(world, w.path + [v.oid], root, rank)
  }

  lemma VisitIsWelcome(world: World, l: Limits, root: string, order: seq<string>, rank: string -> nat, w: Walk,
                       v: Visit)
    requires Given(world, l, root, order, rank) && Ready(world, l, root, order, rank, w)
    requires w.stack != [] && w.stack[|w.stack| - 1] == Enter(v)
    ensures Welcome(world, l, root, rank, w, v)
  {
    hide Shape, Progress, Sound, ConstraintHolds, RefsAt, Reachable, Continues, Enough, Ranked, PresentAt, CountOf,
         CostsOf, Descending, RefOf, NodesOk, EdgesOk, Oid.ParseOid;
    var p := w.(stack := w.stack[..|w.stack| - 1]);
    ShapePops(l, root, w, v);
    ProgressParts(world, root, w);
    OpenedIsReachable(world, l, root, p, v);
    EnoughIsShallow(world, l, root, order);
    assert Sound(world, v.oid);
    if w.path == [] {
      FirstVisit(root, w, v);
      NothingActive(l, root, w);
      FirstIsWelcome(world, l, root, rank, w);
    } else {
      NextVisit(world, l, root, order, rank, w, v);
      DescendsOn(world, root, rank, w.path, v.oid);
      DepthFits(world, l, root, rank, w, v);
      ActiveIsPlain(world, l, root, rank, w, v);
    }
  }

  lemma FirstIsWelcome(world: World, l: Limits, root: string, rank: string -> nat, w: Walk)
    requires w.path == []
    ensures ConstraintHolds(world, RefOf(RootVisit(root))) && Descending(world, w.path + [root], root, rank)
  {
    hide Readable;
  }

  lemma NextVisit(world: World, l: Limits, root: string, order: seq<string>, rank: string -> nat, w: Walk, v: Visit)
    requires Given(world, l, root, order, rank) && Shape(l, root, w) && Progress(world, root, w)
    requires w.stack != [] && w.stack[|w.stack| - 1] == Enter(v) && w.path != []
    ensures var last := w.path[|w.path| - 1];
            && ConstraintHolds(world, RefOf(v)) && Refers(world, last, v.oid)
            && rank(v.oid) <= rank(last) && (!Plain(RefOf(v)) ==> rank(v.oid) < rank(last))
  {
    hide Shape, Progress, Sound, ConstraintHolds, RefsAt, Reachable, Enough, Ranked, PresentAt, NodesOk, EdgesOk,
         Refers, Oid.ParseOid;
    var parent := w.path[|w.path| - 1];
    ProgressParts(world, root, w);
    TopVisitIsReference(world, l, root, w, v);
    LastIsReachable(world, l, root, w);
    ReferenceRefers(world, parent, RefOf(v));
    RankFalls(world, root, rank, parent, RefOf(v));
  }

  lemma ProgressParts(world: World, root: string, w: Walk)
    requires Progress(world, root, w)
    ensures EdgesOk(world, w.edges, w.nodes.Keys) && NodesOk(world, root, w.nodes)
  {
    hide Frames, FinishedOk, NodesOk, SemanticsOk, EdgesOk;
  }

  lemma FirstVisit(root: string, w: Walk, v: Visit)
    requires Continues(root, v, w.path, w.edges) && w.path == []
    ensures v == RootVisit(root)
  {
    hide Oid.ParseOid;
  }

  lemma NothingActive(l: Limits, root: string, w: Walk)
    requires Shape(l, root, w) && w.path == []
    ensures w.active == {}
  {
    hide Chain, CyclesAreReal, Linked, Distinct;
  }

  lemma EnoughIsShallow(world: World, l: Limits, root: string, order: seq<string>)
    requires Enough(world, l, root, order)
    ensures Shallow(world, l, root)
  {
    hide CountOf, CostsOf, Distinct, Reachable, Shallow;
  }

  lemma LastIsReachable(world: World, l: Limits, root: string, w: Walk)
    requires Shape(l, root, w) && NodesOk(world, root, w.nodes) && w.path != []
    ensures Reachable(world, root, w.path[|w.path| - 1])
  {
    hide Chain, CyclesAreReal, Linked, Distinct, Sound, ReportedAs, Reachable, PresentAt;
    var parent := w.path[|w.path| - 1];
    assert parent in w.active && parent in w.nodes.Keys;
    assert NodeOk(world, root, parent, w.nodes[parent].state);
  }

  lemma ReferenceRefers(world: World, x: string, r: Reference)
    requires r in RefsAt(world, x)
    ensures Refers(world, x, r.target)
  {
    hide RefsAt;
  }

  lemma RankFalls(world: World, root: string, rank: string -> nat, a: string, r: Reference)
    requires Ranked(world, root, rank) && Reachable(world, root, a) && r in RefsAt(world, a)
    ensures rank(r.target) <= rank(a) && (!Plain(r) ==> rank(r.target) < rank(a))
  {
    hide Reachable, RefsAt;
  }

  lemma DescendsOn(world: World, root: string, rank: string -> nat, path: seq<string>, x: string)
    requires path != [] && Descending(world, path, root, rank)
    requires Refers(world, path[|path| - 1], x) && rank(x) <= rank(path[|path| - 1])
    ensures Descending(world, path + [x], root, rank)
  {
    hide Refers;
    var n, k := path + [x], |path| - 1;
    forall i | 0 <= i < |n| - 1 ensures Refers(world, n[i], n[i + 1]) {
      if i < k { assert Refers(world, path[i], path[i + 1]); }
    }
    forall i, j | 0 <= i < j < |n| ensures rank(n[j]) <= rank(n[i]) {
      assert rank(path[k]) <= rank(path[i]);
    }
  }

  lemma DepthFits(world: World, l: Limits, root: string, rank: string -> nat, w: Walk, v: Visit)
    requires Shallow(world, l, root) && Continues(root, v, w.path, w.edges) && Shape(l, root, w)
    requires w.path != [] && Descending(world, w.path + [v.oid], root, rank)
    ensures v.depth <= l.maxDepth
  {
    hide Oid.ParseOid, Chain, CyclesAreReal, Linked, Distinct, Steps;
    var p := w.path + [v.oid];
    assert p[..|p| - 1] == w.path;
  }

  /** Only a plain reference can lead back to an active object. */
  lemma ActiveIsPlain(world: World, l: Limits, root: string, rank: string -> nat, w: Walk, v: Visit)
    requires Shape(l, root, w) && w.path != [] && Continues(root, v, w.path, w.edges)
             && Descending(world, w.path, root, rank)
    requires !Plain(RefOf(v)) ==> rank(v.oid) < rank(w.path[|w.path| - 1])
    ensures v.oid in w.active ==> v.role.Some? && v.role.value.RecordReference?
  {
    hide Chain, CyclesAreReal, Linked, Distinct, Steps, Oid.ParseOid;
    if v.oid in w.active {
      var i :| 0 <= i < |w.path| && w.path[i] == v.oid;
      assert rank(w.path[|w.path| - 1]) <= rank(w.path[i]);
    }
  }

  // ----- Every step stays clean -----

  lemma LeaveStaysReady(world: World, l: Limits, root: string, order: seq<string>, rank: string -> nat, w: Walk,
                        oid: string)
    requires Ready(world, l, root, order, rank, w) && w.stack != [] && w.stack[|w.stack| - 1] == Exit(oid)
    ensures Ready(world, l, root, order, rank, Leave(w.(stack := w.stack[..|w.stack| - 1]), oid))
  {
    hide Shape, Progress, CountOf, CostsOf, Descending;
    if w.path != [] { DescendingPops(world, w.path, root, rank); }
    LeaveKeepsShape(l, root, w, oid);
    LeaveKeepsProgress(world, l, root, w, oid);
  }

  lemma ConstraintRaisesNothing(world: World, semantics: map<string, Semantics>, nodes: map<string, Node>, v: Visit)
    requires SemanticsOk(world, semantics, nodes) && ConstraintHolds(world, RefOf(v))
    ensures ConstraintIssues(semantics, v) == []
  {
    hide PresentAt, SemanticsOf, Meets;
  }

  lemma DeclineStaysReady(world: World, l: Limits, root: string, order: seq<string>, rank: string -> nat, w: Walk,
                          v: Visit)
    requires Ready(world, l, root, order, rank, w) && w.stack != [] && w.stack[|w.stack| - 1] == Enter(v)
    requires Welcome(world, l, root, rank, w, v) && (v.oid in w.finished || v.oid in w.active)
    ensures Ready(world, l, root, order, rank, Decline(l, w.(stack := w.stack[..|w.stack| - 1]), v))
  {
    hide Shape, CountOf, CostsOf, ConstraintHolds, ConstraintIssues, Frames, FinishedOk, NodesOk, EdgesOk, SemanticsOk,
         Descending, Reachable, Sound, Continues, CyclePath;
    var p := w.(stack := w.stack[..|w.stack| - 1]);
    ConstraintRaisesNothing(world, w.semantics, w.nodes, v);
    ShapePops(l, root, w, v);
    DeclineKeepsShape(l, root, p, v);
    DeclineKeepsProgress(world, l, root, w, v);
  }

  lemma RoomForOne(world: World, l: Limits, root: string, order: seq<string>, rank: string -> nat, w: Walk, x: string)
    requires Enough(world, l, root, order) && Ready(world, l, root, order, rank, w)
    requires Reachable(world, root, x) && x !in w.nodes
    ensures |w.nodes| < l.maxObjects && Fits(world, l, w, x)
    ensures CountOf(world, order, w.nodes.Keys + {x}) == |w.edges| + Count(world, x)
    ensures CostsOf(world, order, w.nodes.Keys + {x}) == w.bytes + Cost(world, x)
  {
    hide Shape, Frames, FinishedOk, EdgesOk, SemanticsOk, Sound, ReportedAs, Reachable, Count, Cost, CountOf, CostsOf,
         Distinct, PresentAt;
    assert w.nodes.Keys + {x} <= Set(order) by {
      forall y | y in w.nodes ensures y in order {
        assert NodeOk(world, root, y, w.nodes[y].state);
      }
    }
    SumsAdd(world, order, w.nodes.Keys, x);
    SumsGrow(world, order, w.nodes.Keys + {x}, Set(order));
    SubsetSize(w.nodes.Keys + {x}, Set(order));
    SetSize(order);
    assert |w.nodes| == |w.nodes.Keys|;
  }

  lemma {:induction false} SubsetSize(a: set<string>, b: set<string>)
    requires a <= b
    ensures |a| <= |b|
  {
    if a != {} {
      var x :| x in a;
      SubsetSize(a - {x}, b - {x});
    }
  }

  lemma {:induction false} SetSize(s: seq<string>)
    ensures |Set(s)| <= |s|
  {
    if s != [] {
      var k := |s| - 1;
      SetSize(s[..k]);
      assert s == s[..k] + [s[k]];
      SetPush(s[..k], s[k]);
    }
  }

  lemma OpenStaysReady(world: World, l: Limits, root: string, order: seq<string>, rank: string -> nat, w: Walk,
                       v: Visit)
    requires Given(world, l, root, order, rank) && Ready(world, l, root, order, rank, w)
    requires w.stack != [] && w.stack[|w.stack| - 1] == Enter(v)
    requires Welcome(world, l, root, rank, w, v) && v.oid !in w.finished && v.oid !in w.active
    ensures var p := w.(stack := w.stack[..|w.stack| - 1]);
            Opens(l, p, v) && Ready(world, l, root, order, rank, Open(world, l, Activate(p, v), v))
  {
    hide Open, Shape, Progress, CountOf, CostsOf, Count, Cost, ConstraintHolds, Descending, Reachable, Sound,
         Continues, Given, RefsAt, EdgesOf, RefOf, OpensCleanly;
    var p := w.(stack := w.stack[..|w.stack| - 1]);
    ShapePops(l, root, w, v);
    PoppedOpens(world, l, root, order, rank, w, v);
    var n := Open(world, l, Activate(p, v), v);
    CleanlyIsClean(world, p, n, v.oid);
    OpenKeepsShape(world, l, root, p, v);
    OpenKeepsProgress(world, l, root, w, v);
    OpenAddsNode(world, l, Activate(p, v), v);
    SumsAfterOpen(world, l, root, order, rank, w, v);
    ReadyAgain(world, l, root, order, rank, p, n, v.oid);
  }

  lemma CleanlyIsClean(world: World, w: Walk, n: Walk, x: string)
    requires OpensCleanly(world, w, n, x)
    ensures Clean(n) && n.status.Running?
  {
    hide EdgesOf, RefsAt, Cost;
  }

  ghost predicate SumsTo(world: World, order: seq<string>, w: Walk, x: string) {
    && CountOf(world, order, w.nodes.Keys + {x}) == |w.edges| + Count(world, x)
    && CostsOf(world, order, w.nodes.Keys + {x}) == w.bytes + Cost(world, x)
  }

  lemma SumsAfterOpen(world: World, l: Limits, root: string, order: seq<string>, rank: string -> nat, w: Walk, v: Visit)
    requires Given(world, l, root, order, rank) && Ready(world, l, root, order, rank, w)
    requires w.stack != [] && Welcome(world, l, root, rank, w, v) && v.oid !in w.finished && v.oid !in w.active
    ensures SumsTo(world, order, w.(stack := w.stack[..|w.stack| - 1]), v.oid)
  {
    hide Shape, Progress, CountOf, CostsOf, Count, Cost, ConstraintHolds, Descending, Reachable, Sound, Given, RefOf;
    NotKnown(l, root, w, v.oid);
    GivenEnough(world, l, root, order, rank);
    RoomForOne(world, l, root, order, rank, w, v.oid);
  }

  lemma ReadyAgain(world: World, l: Limits, root: string, order: seq<string>, rank: string -> nat, w: Walk, n: Walk,
                   x: string)
    requires OpensCleanly(world, w, n, x) && SumsTo(world, order, w, x) && Shape(l, root, n) && Progress(world, root, n)
    requires n.nodes.Keys == w.nodes.Keys + {x} && n.path == w.path + [x] && Descending(world, w.path + [x], root, rank)
    ensures Ready(world, l, root, order, rank, n)
  {
    hide Shape, Progress, CountOf, CostsOf, Cost, RefsAt, Descending;
  }

  lemma GivenEnough(world: World, l: Limits, root: string, order: seq<string>, rank: string -> nat)
    requires Given(world, l, root, order, rank)
    ensures Enough(world, l, root, order) && SoundClosure(world, root)
  {
    hide SoundClosure, Ranked, Enough;
  }

  lemma PoppedOpens(world: World, l: Limits, root: string, order: seq<string>, rank: string -> nat, w: Walk, v: Visit)
    requires Given(world, l, root, order, rank) && Ready(world, l, root, order, rank, w)
    requires w.stack != [] && w.stack[|w.stack| - 1] == Enter(v)
    requires Welcome(world, l, root, rank, w, v) && v.oid !in w.finished && v.oid !in w.active
    ensures var p := w.(stack := w.stack[..|w.stack| - 1]);
            Opens(l, p, v) && OpensCleanly(world, p, Open(world, l, Activate(p, v), v), v.oid)
  {
    hide Open, Shape, Progress, CountOf, CostsOf, Count, Cost, ConstraintHolds, Descending, Reachable, Sound,
         Continues, Given, RefsAt, EdgesOf, RefOf, SoundClosure, Enough, Oid.ParseOid;
    var p := w.(stack := w.stack[..|w.stack| - 1]);
    ShapePops(l, root, w, v);
    KindAgrees(root, v, p.path, p.edges);
    NotKnown(l, root, w, v.oid);
    GivenEnough(world, l, root, order, rank);
    RoomForOne(world, l, root, order, rank, w, v.oid);
    CommitRootPresent(world, root, p, v);
    SoundOpensCleanly(world, l, Activate(p, v), v);
  }

  /** The visit at depth zero is the root's. */
  lemma CommitRootPresent(world: World, root: string, w: Walk, v: Visit)
    requires SoundClosure(world, root) && Continues(root, v, w.path, w.edges)
    ensures v.depth == 0 && v.kind.Commit? ==> PresentAt(world, v.oid)
  {
    hide Oid.ParseOid, Reachable, Sound, RefsAt, ConstraintHolds;
  }

  lemma NotKnown(l: Limits, root: string, w: Walk, x: string)
    requires Shape(l, root, w) && x !in w.active && x !in w.finished
    ensures x !in w.nodes
  {
    hide Chain, PathOk, CyclesAreReal;
    assert x !in w.nodes.Keys;
  }

  lemma StepStaysReady(world: World, l: Limits, root: string, order: seq<string>, rank: string -> nat, w: Walk)
    requires Given(world, l, root, order, rank) && Ready(world, l, root, order, rank, w) && w.stack != []
    ensures Ready(world, l, root, order, rank, Step(world, l, w))
  {
    hide Open, Decline, Leave, Ready, Given, Reachable, Sound, ConstraintHolds, Descending;
    var k := |w.stack| - 1;
    match w.stack[k]
    case Exit(oid) => LeaveStaysReady(world, l, root, order, rank, w, oid);
    case Enter(v) =>
      VisitIsWelcome(world, l, root, order, rank, w, v);
      if v.oid in w.finished || v.oid in w.active {
        DeclineStaysReady(world, l, root, order, rank, w, v);
      } else {
        OpenStaysReady(world, l, root, order, rank, w, v);
      }
  }

  lemma {:induction false} RunStaysReady(world: World, l: Limits, root: string, order: seq<string>,
                                         rank: string -> nat, w: Walk)
    requires Counted(l, w) && Given(world, l, root, order, rank) && Ready(world, l, root, order, rank, w)
    ensures Ready(world, l, root, order, rank, Run(world, l, w))
    decreases l.maxObjects - |w.nodes|, |w.stack|
  {
    hide Given, Ready, Step;
    ReadyIsRunning(world, l, root, order, rank, w);
    if Live(w) {
      StepAdvances(world, l, w);
      StepStaysReady(world, l, root, order, rank, w);
      ReadyIsRunning(world, l, root, order, rank, Step(world, l, w));
      RunStaysReady(world, l, root, order, rank, Step(world, l, w));
    }
  }

  lemma ReadyIsRunning(world: World, l: Limits, root: string, order: seq<string>, rank: string -> nat, w: Walk)
    requires Ready(world, l, root, order, rank, w)
    ensures w.status.Running? && Clean(w)
  {
    hide Shape, Progress, CountOf, CostsOf, Descending;
  }

  lemma CompleteIsSound(world: World, l: Limits, root: string)
    requires Verify(world, l, root).Reported? && Verify(world, l, root).report.Complete()
    ensures SoundClosure(world, root)
  {
    hide Reachable, Sound, RefsAt, ConstraintHolds, PresentAt, Run, Oid.ParseOid;
    RootIsReachable(world, root);
    CompleteClosureIsSound(world, l, root, root);
    forall x | Reachable(world, root, x)
      ensures Sound(world, x) && forall r | r in RefsAt(world, x) :: ConstraintHolds(world, r)
    {
      CompleteClosureIsSound(world, l, root, x);
    }
  }

  /**
   * Where only plain references can form cycles and the limits hold the closure, no cycle is reported
   * and nothing is cut: the report is complete exactly when the closure is sound.
   */
  lemma RankedClosureIsCompleteWhenSound(world: World, l: Limits, root: string, order: seq<string>, rank: string -> nat)
    requires Ranked(world, root, rank) && Enough(world, l, root, order)
    ensures SoundClosure(world, root) <==>
              Verify(world, l, root).Reported? && Verify(world, l, root).report.Complete()
  {
    hide Ranked, Enough, Reachable, Sound, RefsAt, ConstraintHolds, PresentAt, Run, Oid.ParseOid, Ready;
    if SoundClosure(world, root) {
      ReadyStarts(world, l, root, order, rank);
      RunStaysReady(world, l, root, order, rank, Initial(root));
      ReadyIsRunning(world, l, root, order, rank, Run(world, l, Initial(root)));
    }
    if Verify(world, l, root).Reported? && Verify(world, l, root).report.Complete() {
      CompleteIsSound(world, l, root);
    }
  }

  // ----- References that always go down -----

  /** References go down in rank without exception, as they must when a name is a digest of what it names. */
  ghost predicate StrictlyRanked(world: World, root: string, rank: string -> nat) {
    forall a, b | Reachable(world, root, a) && Refers(world, a, b) :: rank(b) < rank(a)
  }

  /** Then the rank of the root bounds every path. */
  lemma StrictRankIsShallow(world: World, l: Limits, root: string, rank: string -> nat)
    requires StrictlyRanked(world, root, rank) && rank(root) <= l.maxDepth
    ensures Shallow(world, l, root) && Ranked(world, root, rank)
  {
    hide Reachable, Refers, RefsAt, StrictlyRanked, Steps;
    forall p | Steps(world, p) && p != [] && p[0] == root ensures |p| - 1 <= l.maxDepth {
      PathFalls(world, root, rank, p, |p| - 1);
    }
    forall a, r | Reachable(world, root, a) && r in RefsAt(world, a) ensures rank(r.target) < rank(a) {
      ReferenceRefers(world, a, r);
      StrictFall(world, root, rank, a, r.target);
    }
  }

  lemma StrictFall(world: World, root: string, rank: string -> nat, a: string, b: string)
    requires StrictlyRanked(world, root, rank) && Reachable(world, root, a) && Refers(world, a, b)
    ensures rank(b) < rank(a)
  {
    hide Reachable, Refers;
  }

  lemma {:induction false} PathFalls(world: World, root: string, rank: string -> nat, p: seq<string>, k: nat)
    requires StrictlyRanked(world, root, rank) && Steps(world, p) && p != [] && p[0] == root && k < |p|
    ensures rank(p[k]) + k <= rank(root)
  {
    hide Refers, StrictlyRanked;
    if k > 0 {
      PathFalls(world, root, rank, p, k - 1);
      StepsReach(world, root, p, k - 1);
      assert Refers(world, p[k - 1], p[k - 1 + 1]);
      StrictFall(world, root, rank, p[k - 1], p[k]);
    }
  }

  lemma StepsReach(world: World, root: string, p: seq<string>, k: nat)
    requires Steps(world, p) && p != [] && p[0] == root && k < |p|
    ensures Reachable(world, root, p[k])
  {
    hide Refers;
    var q := p[..k + 1];
    forall i | 0 <= i < |q| - 1 ensures Refers(world, q[i], q[i + 1]) {
      assert Refers(world, p[i], p[i + 1]);
    }
    assert ReferencePath(world, root, p[k], q);
  }
}
