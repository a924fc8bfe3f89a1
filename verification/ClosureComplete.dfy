/** What a complete closure report proves about the stored object graph. */
module ClosureComplete {
  import opened Optional
  import opened References
  import opened ClosureWalk
  import opened ClosureShape
  import Oid

  // ----- The graph itself -----

  /** The store holds this object, verified, and of the kind its name says. */
  predicate PresentAt(world: World, x: string) {
    x in world.store && world.store[x].Verified? && Oid.ParseOid(x) == Some(world.store[x].content.kind)
  }

  function ItemsAt(world: World, x: string): seq<Item>
    requires PresentAt(world, x)
  {
    Items(x, world.store[x].content)
  }

  /** The references of a present object; any other name has none. */
  function RefsAt(world: World, x: string): seq<Reference> {
    if PresentAt(world, x) then RefsOf(ItemsAt(world, x)) else []
  }

  predicate Plain(r: Reference) { r.role.RecordReference? }

  /** A present Record whose semantics can be read. */
  predicate Readable(world: World, x: string) {
    PresentAt(world, x) && world.store[x].content.kind.Record? && world.store[x].content.body.Some?
  }

  function SemanticsAt(world: World, x: string): Semantics
    requires Readable(world, x)
  {
    SemanticsOf(world.store[x].content.body.value)
  }

  /** A present Record that a reference constrains has the semantics the reference asks for. */
  predicate ConstraintHolds(world: World, r: Reference) {
    r.constraint.Some? && Readable(world, r.target) ==> Meets(SemanticsAt(world, r.target), r.constraint.value)
  }

  ghost predicate Refers(world: World, a: string, b: string) {
    exists i | 0 <= i < |RefsAt(world, a)| :: RefsAt(world, a)[i].target == b
  }

  /** A walk along references of present objects. */
  ghost predicate ReferencePath(world: World, root: string, x: string, p: seq<string>) {
    |p| >= 1 && p[0] == root && p[|p| - 1] == x && forall i | 0 <= i < |p| - 1 :: Refers(world, p[i], p[i + 1])
  }

  ghost predicate Reachable(world: World, root: string, x: string) { exists p :: ReferencePath(world, root, x, p) }

  /** A present object with nothing malformed and every reference leading to its kind, or a tombstoned one. */
  predicate Sound(world: World, x: string) {
    if PresentAt(world, x)
    then AllRefs(ItemsAt(world, x)) && forall i | 0 <= i < |RefsAt(world, x)| :: Leads(RefsAt(world, x)[i])
    else x !in world.store && x in world.tombstones
  }

  /** The node a sound object is reported as. */
  predicate ReportedAs(world: World, x: string, s: NodeState) {
    if PresentAt(world, x) then s == Present(world.store[x].content.kind, world.store[x].content.byteLen)
    else x in world.tombstones && Oid.ParseOid(x).Some? && s == Tombstoned(Oid.ParseOid(x).value, world.tombstones[x])
  }

  // ----- Debts: what the active objects still owe -----

  function RefOf(v: Visit): Reference {
    Reference(v.oid, v.kind, if v.role.Some? then v.role.value else CommitSnapshot, v.constraint)
  }

  /**
   * A reference is settled: its constraint holds, its target has a node, and unless it is plain the
   * target came first.
   */
  predicate Settled(world: World, r: Reference, next: Option<string>, known: set<string>, done: set<string>) {
    ConstraintHolds(world, r) && r.target in known && (Plain(r) || r.target in done || next == Some(r.target))
  }

  predicate Covered(world: World, x: string, next: Option<string>, pending: set<Reference>, known: set<string>,
                    done: set<string>) {
    forall i | 0 <= i < |RefsAt(world, x)| ::
      RefsAt(world, x)[i] in pending || Settled(world, RefsAt(world, x)[i], next, known, done)
  }

  /** What an object has pending is among its references. */
  ghost predicate Owes(world: World, x: string, pending: set<Reference>) {
    forall r | r in pending :: r in RefsAt(world, x)
  }

  /** Every active object's references are settled or still on the stack above its exit. */
  ghost predicate Frames(world: World, stack: seq<WorkItem>, next: Option<string>, pending: set<Reference>,
                         known: set<string>, done: set<string>)
    decreases |stack|
  {
    stack == [] ||
    var k := |stack| - 1;
    match stack[k]
    case Enter(v) => Frames(world, stack[..k], next, pending + {RefOf(v)}, known, done)
    case Exit(o) =>
      Owes(world, o, pending) && Covered(world, o, next, pending, known, done)
      && Frames(world, stack[..k], Some(o), {}, known, done)
  }

  lemma {:induction false} FramesGrow(world: World, stack: seq<WorkItem>, next: Option<string>, pending: set<Reference>,
                                      known: set<string>, done: set<string>, known': set<string>)
    requires Frames(world, stack, next, pending, known, done) && known <= known'
    ensures Frames(world, stack, next, pending, known', done)
    decreases |stack|
  {
    hide RefsAt, ConstraintHolds;
    if stack != [] {
      var k := |stack| - 1;
      match stack[k]
      case Enter(v) => FramesGrow(world, stack[..k], next, pending + {RefOf(v)}, known, done, known');
      case Exit(o) => FramesGrow(world, stack[..k], Some(o), {}, known, done, known');
    }
  }

  /** Once a pending reference is settled, it need not be on the stack. */
  lemma {:induction false} FramesSettle(world: World, stack: seq<WorkItem>, next: Option<string>,
                                        pending: set<Reference>, r: Reference, known: set<string>, done: set<string>)
    requires Frames(world, stack, None, pending + {r}, known, done) && Settled(world, r, next, known, done)
    ensures Frames(world, stack, next, pending, known, done)
    decreases |stack|
  {
    hide RefsAt, ConstraintHolds;
    if stack != [] {
      var k := |stack| - 1;
      match stack[k]
      case Enter(v) =>
        assert (pending + {r}) + {RefOf(v)} == (pending + {RefOf(v)}) + {r};
        FramesSettle(world, stack[..k], next, pending + {RefOf(v)}, r, known, done);
      case Exit(o) =>
    }
  }

  /** When the child on top of a frame is finished, it counts as done. */
  lemma {:induction false} FramesReturn(world: World, stack: seq<WorkItem>, child: string, pending: set<Reference>,
                                        known: set<string>, done: set<string>)
    requires Frames(world, stack, Some(child), pending, known, done)
    ensures Frames(world, stack, None, pending, known, done + {child})
    decreases |stack|
  {
    hide RefsAt, ConstraintHolds;
    if stack != [] {
      var k := |stack| - 1;
      match stack[k]
      case Enter(v) => FramesReturn(world, stack[..k], child, pending + {RefOf(v)}, known, done);
      case Exit(o) => FramesDone(world, stack[..k], Some(o), {}, known, done, child);
    }
  }

  lemma {:induction false} FramesDone(world: World, stack: seq<WorkItem>, next: Option<string>, pending: set<Reference>,
                                      known: set<string>, done: set<string>, x: string)
    requires Frames(world, stack, next, pending, known, done)
    ensures Frames(world, stack, next, pending, known, done + {x})
    decreases |stack|
  {
    hide RefsAt, ConstraintHolds;
    if stack != [] {
      var k := |stack| - 1;
      match stack[k]
      case Enter(v) => FramesDone(world, stack[..k], next, pending + {RefOf(v)}, known, done, x);
      case Exit(o) => FramesDone(world, stack[..k], Some(o), {}, known, done, x);
    }
  }

  function RefSet(vs: seq<Visit>): set<Reference> { set i | 0 <= i < |vs| :: RefOf(vs[i]) }

  lemma {:induction false} FramesPush(world: World, stack: seq<WorkItem>, next: Option<string>, pending: set<Reference>,
                                      vs: seq<Visit>, known: set<string>, done: set<string>)
    requires Frames(world, stack, next, pending + RefSet(vs), known, done)
    ensures Frames(world, stack + Reversed(vs), next, pending, known, done)
    decreases |vs|
  {
    hide Covered, Owes, RefOf;
    if vs == [] {
      assert stack + Reversed(vs) == stack && pending + RefSet(vs) == pending;
    } else {
      var s := stack + Reversed(vs);
      assert s == (stack + Reversed(vs[1..])) + [Enter(vs[0])];
      assert s[..|s| - 1] == stack + Reversed(vs[1..]);
      RefSetHead(vs);
      assert pending + RefSet(vs) == (pending + {RefOf(vs[0])}) + RefSet(vs[1..]);
      FramesPush(world, stack, next, pending + {RefOf(vs[0])}, vs[1..], known, done);
    }
  }

  lemma RefSetHead(vs: seq<Visit>)
    requires vs != []
    ensures RefSet(vs) == {RefOf(vs[0])} + RefSet(vs[1..])
  {
    hide RefOf;
    forall r ensures r in RefSet(vs) <==> r in {RefOf(vs[0])} + RefSet(vs[1..]) {
      if r in RefSet(vs[1..]) {
        var i :| 0 <= i < |vs[1..]| && r == RefOf(vs[1..][i]);
        assert r == RefOf(vs[i + 1]);
      }
      if r in RefSet(vs) {
        var i :| 0 <= i < |vs| && r == RefOf(vs[i]);
        if i > 0 { assert r == RefOf(vs[1..][i - 1]); }
      }
    }
  }

  // ----- What a clean walk has established -----

  predicate Clean(w: Walk) { w.issues == [] && !w.truncated }

  /** Finished objects have settled references, and all but plain ones lead to objects finished before them. */
  ghost predicate FinishedOk(world: World, finished: seq<string>, known: set<string>) {
    forall i | 0 <= i < |finished| :: Covered(world, finished[i], None, {}, known, Set(finished[..i]))
  }

  ghost predicate NodeOk(world: World, root: string, x: string, s: NodeState) {
    Sound(world, x) && ReportedAs(world, x, s) && (x == root ==> PresentAt(world, x)) && Reachable(world, root, x)
  }

  ghost predicate NodesOk(world: World, root: string, nodes: map<string, Node>) {
    forall x | x in nodes :: NodeOk(world, root, x, nodes[x].state)
  }

  predicate SemanticsOk(world: World, semantics: map<string, Semantics>, nodes: map<string, Node>) {
    && (forall x | x in nodes && Readable(world, x) :: x in semantics)
    && (forall x | x in semantics :: x in nodes && Readable(world, x) && semantics[x] == SemanticsAt(world, x))
  }

  /** The recorded edges out of one object. */
  function EdgesFrom(edges: seq<Edge>, x: string): seq<Edge> {
    if edges == [] then []
    else EdgesFrom(edges[..|edges| - 1], x) + (if edges[|edges| - 1].source == x then [edges[|edges| - 1]] else [])
  }

  ghost predicate EdgesOk(world: World, edges: seq<Edge>, known: set<string>) {
    forall x :: EdgesFrom(edges, x) == if x in known then EdgesOf(x, RefsAt(world, x)) else []
  }

  ghost predicate Progress(world: World, root: string, w: Walk) {
    && Frames(world, w.stack, None, {}, w.nodes.Keys, Set(w.finished))
    && FinishedOk(world, w.finished, w.nodes.Keys)
    && NodesOk(world, root, w.nodes)
    && SemanticsOk(world, w.semantics, w.nodes)
    && EdgesOk(world, w.edges, w.nodes.Keys)
    && (root in w.nodes || w.stack == [Enter(RootVisit(root))])
  }

  lemma ProgressStarts(world: World, root: string)
    ensures Progress(world, root, Initial(root))
  {
    hide RefsAt, RefOf;
    var w := Initial(root);
    assert Frames(world, w.stack[..0], None, {} + {RefOf(RootVisit(root))}, {}, {});
    assert Set(w.finished) == {} && w.nodes.Keys == {};
    assert w.stack[0] == Enter(RootVisit(root));
  }

  // ----- Leaving -----

  lemma LeaveKeepsProgress(world: World, l: Limits, root: string, w: Walk, oid: string)
    requires Shape(l, root, w) && Progress(world, root, w) && w.stack != [] && w.stack[|w.stack| - 1] == Exit(oid)
    ensures Progress(world, root, Leave(w.(stack := w.stack[..|w.stack| - 1]), oid))
  {
    hide Covered, NodesOk, SemanticsOk, EdgesOk, Chain, CyclesAreReal, Linked, Distinct;
    var rest := w.stack[..|w.stack| - 1];
    LeavingIsNew(l, root, w, oid);
    SetPush(w.finished, oid);
    FramesReturn(world, rest, oid, {}, w.nodes.Keys, Set(w.finished));
    FinishedExtends(world, w.finished, oid, w.nodes.Keys);
  }

  lemma LeavingIsNew(l: Limits, root: string, w: Walk, oid: string)
    requires Shape(l, root, w) && w.stack != [] && w.stack[|w.stack| - 1] == Exit(oid)
    ensures oid !in w.finished
  {
    hide Continues, CyclesAreReal, Linked, Distinct;
    assert oid in w.path;
  }

  lemma FinishedExtends(world: World, finished: seq<string>, oid: string, known: set<string>)
    requires FinishedOk(world, finished, known) && Covered(world, oid, None, {}, known, Set(finished))
    ensures FinishedOk(world, finished + [oid], known)
  {
    hide Covered;
    var f := finished + [oid];
    forall i | 0 <= i < |f| ensures Covered(world, f[i], None, {}, known, Set(f[..i])) {
      if i < |finished| { assert f[..i] == finished[..i]; } else { assert f[..i] == finished; }
    }
  }

  // ----- Declining -----

  /** A declined visit that raises no issue had its reference settled already. */
  lemma DeclinedIsSettled(world: World, l: Limits, root: string, w: Walk, v: Visit)
    requires Shape(l, root, w) && SemanticsOk(world, w.semantics, w.nodes) && !Opens(l, w, v)
    requires Clean(Decline(l, w, v)) && Decline(l, w, v).status.Running?
    ensures Clean(w) && v.oid in w.nodes
    ensures Settled(world, RefOf(v), None, w.nodes.Keys, Set(w.finished))
  {
    hide Chain, CyclesAreReal, Linked, Distinct, PresentAt, SemanticsOf, Meets, CyclePath;
    assert v.oid in w.nodes.Keys;
  }

  lemma DeclineKeepsProgress(world: World, l: Limits, root: string, w: Walk, v: Visit)
    requires w.stack != [] && w.stack[|w.stack| - 1] == Enter(v)
    requires Shape(l, root, w.(stack := w.stack[..|w.stack| - 1])) && Progress(world, root, w)
    requires var p := w.(stack := w.stack[..|w.stack| - 1]);
             !Opens(l, p, v) && Clean(Decline(l, p, v)) && Decline(l, p, v).status.Running?
    ensures Progress(world, root, Decline(l, w.(stack := w.stack[..|w.stack| - 1]), v))
  {
    hide Shape, Covered, NodesOk, SemanticsOk, EdgesOk, FinishedOk, Decline, RefOf, Settled, RefsAt;
    var p := w.(stack := w.stack[..|w.stack| - 1]);
    DeclineKeeps(l, p, v);
    DeclinedIsSettled(world, l, root, p, v);
    FramesSettle(world, p.stack, None, {}, RefOf(v), w.nodes.Keys, Set(w.finished));
  }

  // ----- Opening -----

  lemma {:induction false} NoRefIssues(source: string, refs: seq<Reference>)
    requires RefIssues(source, refs) == []
    ensures forall i | 0 <= i < |refs| :: Leads(refs[i])
  {
    hide Leads;
    if refs != [] { NoRefIssues(source, refs[1..]); }
  }

  /** Expanding an object without an issue gathers all of it, finds nothing malformed, and every reference leads on. */
  lemma ExpandClean(l: Limits, w: Walk, v: Visit, obj: Stored)
    requires Clean(Expand(l, w, v, obj)) && Expand(l, w, v, obj).status.Running?
    ensures Clean(w)
    ensures AllRefs(Items(v.oid, obj))
    ensures var g := GatherAll(Remaining(l, w), NOTHING, Items(v.oid, obj));
            g.exceeded.None? && g.refs == RefsOf(Items(v.oid, obj)) && forall i | 0 <= i < |g.refs| :: Leads(g.refs[i])
  {
    hide Items, GatherAll, Leads, Children, Reversed, EdgesOf, Remaining, RefsOf, AllRefs;
    var g := GatherAll(Remaining(l, w), NOTHING, Items(v.oid, obj));
    assert |BadIssues(v.oid, g.bad)| == 0 && |RefIssues(v.oid, g.refs)| == 0 && |w.issues| == 0;
    InBudgetGathersAll(Remaining(l, w), NOTHING, Items(v.oid, obj));
    NoRefIssues(v.oid, g.refs);
  }

  ghost predicate OpensSoundly(world: World, w: Walk, n: Walk, v: Visit) {
    && v.oid in n.nodes && n.nodes == w.nodes[v.oid := n.nodes[v.oid]]
    && Sound(world, v.oid) && ReportedAs(world, v.oid, n.nodes[v.oid].state)
    && (v.depth == 0 && v.kind.Commit? ==> PresentAt(world, v.oid))
    && n.semantics == (if Readable(world, v.oid) then w.semantics[v.oid := SemanticsAt(world, v.oid)] else w.semantics)
    && ConstraintHolds(world, RefOf(v))
  }

  lemma AbsentClean(world: World, w: Walk, v: Visit)
    requires v.oid !in world.store && Oid.ParseOid(v.oid) == Some(v.kind) && Clean(Absent(world, w, v))
    ensures Clean(w) && OpensSoundly(world, w, Absent(world, w, v), v) && RefsAt(world, v.oid) == []
  {
    hide Oid.ParseOid, Items, SemanticsOf, Meets;
  }

  lemma PresentClean(world: World, l: Limits, w: Walk, v: Visit)
    requires Opened(world, v) && Oid.ParseOid(v.oid) == Some(v.kind) && w.status.Running?
    requires Clean(Open(world, l, w, v)) && Open(world, l, w, v).status.Running?
    ensures Clean(w) && OpensSoundly(world, w, Open(world, l, w, v), v)
    ensures Fetched(world, l, w, v).exceeded.None? && Fetched(world, l, w, v).refs == RefsAt(world, v.oid)
  {
    hide Oid.ParseOid, Expand, Items, SemanticsOf, Meets, GatherAll, AllRefs, RefsOf, Leads;
    var obj := world.store[v.oid].content;
    var m := WithNode(Describe(w, v, obj), v, Present(obj.kind, obj.byteLen));
    ExpandClean(l, m, v, obj);
    ExpandKeeps(l, m, v, obj);
  }

  lemma OpenClean(world: World, l: Limits, w: Walk, v: Visit)
    requires Oid.ParseOid(v.oid) == Some(v.kind) && w.status.Running?
    requires Clean(Open(world, l, w, v)) && Open(world, l, w, v).status.Running?
    ensures Clean(w) && OpensSoundly(world, w, Open(world, l, w, v), v)
    ensures Fetched(world, l, w, v).exceeded.None? && Fetched(world, l, w, v).refs == RefsAt(world, v.oid)
  {
    hide Oid.ParseOid, Expand, Absent, Describe, OpensSoundly, RefsAt, GatherAll, Items;
    if v.oid !in world.store {
      AbsentClean(world, w, v);
    } else if Opened(world, v) {
      PresentClean(world, l, w, v);
    }
  }

  lemma {:induction false} ChildrenCover(v: Visit, refs: seq<Reference>)
    requires forall i | 0 <= i < |refs| :: Leads(refs[i])
    ensures |Children(v, refs)| == |refs|
    ensures forall i | 0 <= i < |refs| :: RefOf(Children(v, refs)[i]) == refs[i]
  {
    hide Leads;
    if refs != [] { ChildrenCover(v, refs[1..]); }
  }

  lemma OpenFrames(world: World, p: seq<WorkItem>, v: Visit, known: set<string>, done: set<string>)
    requires Frames(world, p, None, {RefOf(v)}, known, done) && ConstraintHolds(world, RefOf(v)) && Sound(world, v.oid)
    ensures Frames(world, p + [Exit(v.oid)] + Reversed(Children(v, RefsAt(world, v.oid))), None, {}, known + {v.oid},
                   done)
  {
    hide ConstraintHolds, Leads, ItemsAt, PresentAt, RefsOf;
    var more := known + {v.oid};
    FramesGrow(world, p, None, {RefOf(v)}, known, done, more);
    assert {} + {RefOf(v)} == {RefOf(v)};
    FramesSettle(world, p, Some(v.oid), {}, RefOf(v), more, done);
    var refs := RefsAt(world, v.oid);
    var vs := Children(v, refs);
    ChildrenCover(v, refs);
    var s := p + [Exit(v.oid)];
    assert s[..|s| - 1] == p;
    assert Covered(world, v.oid, None, {} + RefSet(vs), more, done) by {
      forall i | 0 <= i < |refs| ensures refs[i] in RefSet(vs) {
        assert RefOf(vs[i]) == refs[i];
      }
    }
    assert Owes(world, v.oid, {} + RefSet(vs)) by {
      forall r | r in RefSet(vs) ensures r in refs {
        var i :| 0 <= i < |vs| && r == RefOf(vs[i]);
        assert r == refs[i];
      }
    }
    FramesPush(world, s, None, {}, vs, more, done);
  }

  lemma FinishedGrows(world: World, finished: seq<string>, known: set<string>, more: set<string>)
    requires FinishedOk(world, finished, known) && known <= more
    ensures FinishedOk(world, finished, more)
  {
    hide RefsAt, ConstraintHolds;
  }

  // ----- Edges -----

  lemma {:induction false} EdgesFromConcat(a: seq<Edge>, b: seq<Edge>, x: string)
    ensures EdgesFrom(a + b, x) == EdgesFrom(a, x) + EdgesFrom(b, x)
    decreases |b|
  {
    if b == [] {
      assert a + b == a;
    } else {
      var k := |b| - 1;
      assert (a + b)[..|a + b| - 1] == a + b[..k];
      EdgesFromConcat(a, b[..k], x);
    }
  }

  lemma {:induction false} EdgesFromSource(es: seq<Edge>, source: string, x: string)
    requires forall i | 0 <= i < |es| :: es[i].source == source
    ensures EdgesFrom(es, x) == if x == source then es else []
  {
    if es != [] {
      var k := |es| - 1;
      EdgesFromSource(es[..k], source, x);
      assert es == es[..k] + [es[k]];
    }
  }

  lemma EdgesExtend(world: World, edges: seq<Edge>, known: set<string>, oid: string)
    requires EdgesOk(world, edges, known) && oid !in known
    ensures EdgesOk(world, edges + EdgesOf(oid, RefsAt(world, oid)), known + {oid})
  {
    hide RefsAt;
    var es := EdgesOf(oid, RefsAt(world, oid));
    forall x ensures EdgesFrom(edges + es, x) == if x in known + {oid} then EdgesOf(x, RefsAt(world, x)) else [] {
      EdgesFromConcat(edges, es, x);
      EdgesFromSource(es, oid, x);
      assert EdgesFrom(edges, x) == if x in known then EdgesOf(x, RefsAt(world, x)) else [];
    }
  }

  lemma {:induction false} EdgeIsFromSource(edges: seq<Edge>, e: Edge)
    requires e in edges
    ensures e in EdgesFrom(edges, e.source)
  {
    var k := |edges| - 1;
    if edges[k] != e {
      var i :| 0 <= i < |edges| && edges[i] == e;
      assert edges[..k][i] == e;
      EdgeIsFromSource(edges[..k], e);
    }
  }

  /** A recorded edge of a known object is one of its references. */
  lemma RecordedEdgeRefers(world: World, edges: seq<Edge>, known: set<string>, e: Edge)
    requires EdgesOk(world, edges, known) && e in edges && e.source in known
    ensures Refers(world, e.source, e.target)
  {
    hide RefsAt;
    EdgeIsFromSource(edges, e);
    var es := EdgesOf(e.source, RefsAt(world, e.source));
    assert EdgesFrom(edges, e.source) == es;
    var i :| 0 <= i < |es| && es[i] == e;
    assert RefsAt(world, e.source)[i].target == e.target;
  }

  lemma ReachableExtends(world: World, root: string, a: string, b: string)
    requires Reachable(world, root, a) && Refers(world, a, b)
    ensures Reachable(world, root, b)
  {
    hide Refers;
    var p :| ReferencePath(world, root, a, p);
    assert ReferencePath(world, root, b, p + [b]);
  }

  // ----- The opened object joins the graph -----

  lemma OpenedIsReachable(world: World, l: Limits, root: string, p: Walk, v: Visit)
    requires Shape(l, root, p) && Continues(root, v, p.path, p.edges)
    requires EdgesOk(world, p.edges, p.nodes.Keys) && NodesOk(world, root, p.nodes)
    ensures Reachable(world, root, v.oid)
    ensures v.oid == root && v.oid !in p.active ==> v.depth == 0 && v.kind.Commit?
  {
    hide Chain, CyclesAreReal, Linked, Distinct, RefsAt, EdgesOk, Reachable, Sound, ReportedAs, PresentAt, Oid.ParseOid;
    if p.path == [] {
      RootIsReachable(world, root);
    } else {
      var parent := p.path[|p.path| - 1];
      assert parent in p.active && p.path[0] in p.active;
      RecordedEdgeRefers(world, p.edges, p.nodes.Keys, Edge(parent, v.oid, v.kind, v.role.value));
      assert NodeOk(world, root, parent, p.nodes[parent].state);
      ReachableExtends(world, root, parent, v.oid);
    }
  }

  lemma RootIsReachable(world: World, root: string)
    ensures Reachable(world, root, root)
  {
    assert ReferencePath(world, root, root, [root]);
  }

  lemma NodesExtend(world: World, root: string, w: Walk, n: Walk, v: Visit)
    requires NodesOk(world, root, w.nodes) && OpensSoundly(world, w, n, v) && Reachable(world, root, v.oid)
    requires v.oid == root ==> v.depth == 0 && v.kind.Commit?
    ensures NodesOk(world, root, n.nodes)
  {
    hide Sound, ReportedAs, Reachable, PresentAt, ConstraintHolds, Readable;
    forall x | x in n.nodes ensures NodeOk(world, root, x, n.nodes[x].state) {
      if x != v.oid { assert NodeOk(world, root, x, w.nodes[x].state); }
    }
  }

  lemma SemanticsExtend(world: World, root: string, w: Walk, n: Walk, v: Visit)
    requires SemanticsOk(world, w.semantics, w.nodes) && OpensSoundly(world, w, n, v)
    ensures SemanticsOk(world, n.semantics, n.nodes)
  {
    hide Sound, ReportedAs, PresentAt, ConstraintHolds, SemanticsOf;
  }

  lemma OpenKeepsProgress(world: World, l: Limits, root: string, w: Walk, v: Visit)
    requires w.stack != [] && w.stack[|w.stack| - 1] == Enter(v) && w.status.Running?
    requires var p := w.(stack := w.stack[..|w.stack| - 1]);
             && Shape(l, root, p) && Continues(root, v, p.path, p.edges) && Opens(l, p, v)
             && Clean(Open(world, l, Activate(p, v), v)) && Open(world, l, Activate(p, v), v).status.Running?
    requires Progress(world, root, w)
    ensures Progress(world, root, Open(world, l, Activate(w.(stack := w.stack[..|w.stack| - 1]), v), v))
  {
    hide Open, Shape, Covered, NodesOk, SemanticsOk, EdgesOk, FinishedOk, RefOf, RefsAt, Fetched, EdgesOf, Children,
         Reversed, Reachable, Sound, ReportedAs, ConstraintHolds, PresentAt, Readable, SemanticsOf, Extends;
    var p := w.(stack := w.stack[..|w.stack| - 1]);
    var a := Activate(p, v);
    var n := Open(world, l, a, v);
    KindAgrees(root, v, p.path, p.edges);
    OpenClean(world, l, a, v);
    OpenAddsNode(world, l, a, v);
    OpenDoes(world, l, a, v);
    NotYetKnown(l, root, p, v);
    OpenedIsReachable(world, l, root, p, v);
    NodesExtend(world, root, a, n, v);
    SemanticsExtend(world, root, a, n, v);
    EdgesExtend(world, p.edges, p.nodes.Keys, v.oid);
    FinishedGrows(world, p.finished, p.nodes.Keys, n.nodes.Keys);
    assert {} + {RefOf(v)} == {RefOf(v)};
    OpenFrames(world, p.stack, v, p.nodes.Keys, Set(p.finished));
    RootAppears(world, root, w, n, v);
  }

  lemma RootAppears(world: World, root: string, w: Walk, n: Walk, v: Visit)
    requires w.stack != [] && w.stack[|w.stack| - 1] == Enter(v)
    requires root in w.nodes || w.stack == [Enter(RootVisit(root))]
    requires n.nodes.Keys == w.nodes.Keys + {v.oid}
    ensures root in n.nodes
  {
    assert root in n.nodes.Keys;
  }

  lemma KindAgrees(root: string, v: Visit, path: seq<string>, edges: seq<Edge>)
    requires Continues(root, v, path, edges)
    ensures Oid.ParseOid(v.oid) == Some(v.kind)
  {
    hide Oid.ParseOid;
  }

  lemma NotYetKnown(l: Limits, root: string, p: Walk, v: Visit)
    requires Shape(l, root, p) && Opens(l, p, v)
    ensures v.oid !in p.nodes.Keys
  {
    hide Chain, PathOk, CyclesAreReal;
  }

  // ----- Whole walks -----

  lemma OpenWasClean(world: World, l: Limits, w: Walk, v: Visit)
    requires w.status.Running?
    ensures var n := Open(world, l, w, v);
            && (n.status.Stopped? ==> n.truncated)
            && (Clean(n) && !n.status.Aborted? ==> Clean(w))
  {
    hide Expand, SemanticsOf, Meets;
    if Opened(world, v) {
      var obj := world.store[v.oid].content;
      ExpandWasClean(l, WithNode(Describe(w, v, obj), v, Present(obj.kind, obj.byteLen)), v, obj);
    }
  }

  lemma ExpandWasClean(l: Limits, w: Walk, v: Visit, obj: Stored)
    requires w.status.Running?
    ensures var n := Expand(l, w, v, obj);
            && (n.status.Stopped? ==> n.truncated)
            && (Clean(n) ==> Clean(w))
  {
    hide GatherAll, Items, Children, EdgesOf, Reversed, Remaining, RefIssues, BadIssues;
  }

  /** A step never clears an issue, and a walk that stops early is marked truncated. */
  lemma StepWasClean(world: World, l: Limits, w: Walk)
    requires Live(w)
    ensures var n := Step(world, l, w);
            && (n.status.Stopped? ==> n.truncated)
            && (Clean(n) && !n.status.Aborted? ==> Clean(w))
  {
    hide Open, CyclePath, Meets;
    var k := |w.stack| - 1;
    match w.stack[k]
    case Exit(oid) =>
    case Enter(v) => OpenWasClean(world, l, Activate(w.(stack := w.stack[..k]), v), v);
  }

  lemma StepKeepsProgress(world: World, l: Limits, root: string, w: Walk)
    requires Live(w) && Shape(l, root, w) && Progress(world, root, w)
    requires Clean(Step(world, l, w)) && Step(world, l, w).status.Running?
    ensures Progress(world, root, Step(world, l, w))
  {
    hide Open, Decline, Leave, Progress, Shape, Continues, Clean;
    var k := |w.stack| - 1;
    match w.stack[k]
    case Exit(oid) => LeaveKeepsProgress(world, l, root, w, oid);
    case Enter(v) =>
      var p := w.(stack := w.stack[..k]);
      ShapePops(l, root, w, v);
      if Opens(l, p, v) {
        OpenKeepsProgress(world, l, root, w, v);
      } else {
        DeclineKeepsProgress(world, l, root, w, v);
      }
  }

  lemma {:induction false} RunKeepsProgress(world: World, l: Limits, root: string, w: Walk)
    requires Counted(l, w) && Shape(l, root, w) && w.status.Running?
    requires Clean(w) ==> Progress(world, root, w)
    ensures var f := Run(world, l, w);
            !f.status.Aborted? && Clean(f) ==> Progress(world, root, f) && f.stack == []
    decreases l.maxObjects - |w.nodes|, |w.stack|
  {
    hide Shape, Step, Progress;
    if Live(w) {
      StepAdvances(world, l, w);
      StepKeepsShape(world, l, root, w);
      StepWasClean(world, l, w);
      var n := Step(world, l, w);
      if n.status.Running? {
        if Clean(n) { StepKeepsProgress(world, l, root, w); }
        RunKeepsProgress(world, l, root, n);
      }
    }
  }

  /** The final state behind a complete report. */
  lemma CompleteRun(world: World, l: Limits, root: string)
    requires Verify(world, l, root).Reported? && Verify(world, l, root).report.Complete()
    ensures Oid.ParseOid(root) == Some(Oid.Commit)
    ensures var f := Run(world, l, Initial(root));
            && Verify(world, l, root) == ReportOf(root, f) && !f.status.Aborted?
            && Shape(l, root, f) && Progress(world, root, f) && f.stack == [] && f.path == []
            && Set(f.finished) == f.nodes.Keys && Distinct(f.finished)
  {
    hide Oid.ParseOid, CyclesAreReal, Run, Progress, Linked;
    ShapeStarts(l, root);
    ProgressStarts(world, root);
    RunKeepsShape(world, l, root, Initial(root));
    RunKeepsProgress(world, l, root, Initial(root));
    var f := Run(world, l, Initial(root));
    assert f.active == Set([]);
  }

  // ----- The theorems -----

  /** A complete report has a node for exactly the objects reachable from the root. */
  lemma CompleteNodesAreReachable(world: World, l: Limits, root: string, x: string)
    requires Verify(world, l, root).Reported? && Verify(world, l, root).report.Complete()
    ensures x in Verify(world, l, root).report.nodes <==> Reachable(world, root, x)
  {
    hide Oid.ParseOid, Shape, Run, Frames, FinishedOk, SemanticsOk, EdgesOk, Sound, ReportedAs, Reachable, Verify;
    CompleteRun(world, l, root);
    var f := Run(world, l, Initial(root));
    if x in f.nodes {
      assert NodeOk(world, root, x, f.nodes[x].state);
    }
    if Reachable(world, root, x) {
      ReachableIsKnown(world, root, f, x);
    }
  }

  lemma ReachableIsKnown(world: World, root: string, f: Walk, x: string)
    requires FinishedOk(world, f.finished, f.nodes.Keys) && Set(f.finished) == f.nodes.Keys && root in f.nodes
    requires Reachable(world, root, x)
    ensures x in f.nodes
  {
    hide Refers, FinishedOk;
    var p :| ReferencePath(world, root, x, p);
    PathStaysKnown(world, root, f, p, |p| - 1);
  }

  lemma {:induction false} PathStaysKnown(world: World, root: string, f: Walk, p: seq<string>, k: nat)
    requires FinishedOk(world, f.finished, f.nodes.Keys) && Set(f.finished) == f.nodes.Keys && root in f.nodes
    requires k < |p| && p[0] == root && forall i | 0 <= i < |p| - 1 :: Refers(world, p[i], p[i + 1])
    ensures p[k] in f.nodes
    decreases k
  {
    hide Refers, FinishedOk;
    if k > 0 {
      PathStaysKnown(world, root, f, p, k - 1);
      assert Refers(world, p[k - 1], p[k - 1 + 1]);
      KnownRefersKnown(world, f, p[k - 1], p[k]);
    }
  }

  lemma KnownRefersKnown(world: World, f: Walk, a: string, b: string)
    requires FinishedOk(world, f.finished, f.nodes.Keys) && Set(f.finished) == f.nodes.Keys
    requires a in f.nodes && Refers(world, a, b)
    ensures b in f.nodes
  {
    hide RefsAt, ConstraintHolds;
    assert a in Set(f.finished);
    var i :| 0 <= i < |f.finished| && f.finished[i] == a;
    assert Covered(world, a, None, {}, f.nodes.Keys, Set(f.finished[..i]));
    var k :| 0 <= k < |RefsAt(world, a)| && RefsAt(world, a)[k].target == b;
    assert b in f.nodes.Keys;
  }

  /**
   * Behind a complete report the root is present; every reachable object is present under its own
   * kind, well formed, with references that lead on and constraints that all hold, or is tombstoned;
   * and the report records exactly its references, in order, as edges.
   */
  lemma CompleteClosureIsSound(world: World, l: Limits, root: string, x: string)
    requires Verify(world, l, root).Reported? && Verify(world, l, root).report.Complete()
    requires Reachable(world, root, x)
    ensures PresentAt(world, root) && Oid.ParseOid(root) == Some(Oid.Commit)
    ensures Sound(world, x) && x in Verify(world, l, root).report.nodes
    ensures ReportedAs(world, x, Verify(world, l, root).report.nodes[x].state)
    ensures forall r | r in RefsAt(world, x) :: ConstraintHolds(world, r)
    ensures EdgesFrom(Verify(world, l, root).report.edges, x) == EdgesOf(x, RefsAt(world, x))
  {
    hide Oid.ParseOid, Shape, Run, Frames, SemanticsOk, Sound, ReportedAs, Reachable, Verify, RefsAt, ConstraintHolds,
         PresentAt, Readable;
    CompleteRun(world, l, root);
    CompleteNodesAreReachable(world, l, root, x);
    var f := Run(world, l, Initial(root));
    assert NodeOk(world, root, x, f.nodes[x].state) && NodeOk(world, root, root, f.nodes[root].state);
    assert x in Set(f.finished);
    var i :| 0 <= i < |f.finished| && f.finished[i] == x;
    assert Covered(world, x, None, {}, f.nodes.Keys, Set(f.finished[..i]));
  }

  /** A sound present Record can be read, so the constraints on it are not vacuous. */
  lemma SoundRecordIsReadable(world: World, x: string)
    requires Sound(world, x) && PresentAt(world, x) && world.store[x].content.kind.Record?
    ensures Readable(world, x)
  {
    hide Oid.ParseOid, Items, AllRefs, RefsOf;
    var obj := world.store[x].content;
    if obj.body.None? { BodylessRecordIsMalformed(x, obj); }
  }

  lemma BodylessRecordIsMalformed(oid: string, obj: Stored)
    requires obj.kind.Record? && obj.body.None?
    ensures !AllRefs(Items(oid, obj))
  {
    assert Items(oid, obj)[0].Bad?;
  }

  // ----- No cycle of structural references -----

  /** A Commit, Tree-entry or supersedes reference, as opposed to a plain record reference. */
  ghost predicate Depends(world: World, a: string, b: string) {
    exists i | 0 <= i < |RefsAt(world, a)| :: RefsAt(world, a)[i].target == b && !Plain(RefsAt(world, a)[i])
  }

  lemma {:induction false} FirstPosition(s: seq<string>, x: string, k: nat)
    requires x in s && k < |s| && s[k] == x
    ensures PositionOf(s, x) <= k
  {
    if s[0] != x { FirstPosition(s[1..], x, k - 1); }
  }

  lemma DependencyRanksLower(world: World, f: Walk, a: string, b: string)
    requires FinishedOk(world, f.finished, f.nodes.Keys) && a in f.finished && Depends(world, a, b)
    ensures b in f.finished && PositionOf(f.finished, b) < PositionOf(f.finished, a)
  {
    hide RefsAt, ConstraintHolds;
    var i := PositionOf(f.finished, a);
    assert Covered(world, a, None, {}, f.nodes.Keys, Set(f.finished[..i]));
    var k :| 0 <= k < |RefsAt(world, a)| && RefsAt(world, a)[k].target == b && !Plain(RefsAt(world, a)[k]);
    assert b in f.finished[..i];
    var j :| 0 <= j < i && f.finished[j] == b;
    FirstPosition(f.finished, b, j);
  }

  lemma {:induction false} DependencyPathDescends(world: World, f: Walk, p: seq<string>, k: nat)
    requires FinishedOk(world, f.finished, f.nodes.Keys) && 1 <= k < |p| && p[0] in f.finished
    requires forall i | 0 <= i < |p| - 1 :: Depends(world, p[i], p[i + 1])
    ensures p[k] in f.finished && PositionOf(f.finished, p[k]) < PositionOf(f.finished, p[0])
    decreases k
  {
    hide Depends, FinishedOk;
    if k > 1 { DependencyPathDescends(world, f, p, k - 1); }
    assert Depends(world, p[k - 1], p[k - 1 + 1]);
    DependencyRanksLower(world, f, p[k - 1], p[k]);
  }

  /** Behind a complete report no reachable object depends on itself, however long the way round. */
  lemma CompleteClosureHasNoDependencyCycle(world: World, l: Limits, root: string, p: seq<string>)
    requires Verify(world, l, root).Reported? && Verify(world, l, root).report.Complete()
    requires |p| >= 2 && Reachable(world, root, p[0])
    requires forall i | 0 <= i < |p| - 1 :: Depends(world, p[i], p[i + 1])
    ensures p[|p| - 1] != p[0]
  {
    hide Oid.ParseOid, Shape, Run, Frames, FinishedOk, SemanticsOk, EdgesOk, NodesOk, Reachable, Verify, Depends;
    CompleteRun(world, l, root);
    CompleteNodesAreReachable(world, l, root, p[0]);
    var f := Run(world, l, Initial(root));
    assert p[0] in Set(f.finished);
    DependencyPathDescends(world, f, p, |p| - 1);
  }
}
