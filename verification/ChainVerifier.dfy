/** The two chain walks as they run, sharing one account of work. */
module ChainVerifier {
  import opened Optional
  import opened DecisionChain

  class AuthorityWork {
    var nodes: nat
    var edges: nat

    constructor ()
      ensures nodes == 0 && edges == 0
    {
      nodes, edges := 0, 0;
    }

    method Node(l: Limits) returns (ok: bool)
      modifies this
      ensures nodes == old(nodes) + 1 && edges == old(edges) && ok == (nodes <= l.maxNodes)
    {
      nodes := nodes + 1;
      ok := nodes <= l.maxNodes;
    }

    method Edges(count: nat, l: Limits) returns (ok: bool)
      modifies this
      ensures edges == old(edges) + count && nodes == old(nodes) && ok == (edges <= l.maxEdges)
    {
      edges := edges + count;
      ok := edges <= l.maxEdges;
    }
  }

  /** What a finished walk adds to the part of the chain already passed. */
  ghost predicate Continues(whole: Option<seq<string>>, passed: seq<string>, rest: Option<seq<string>>) {
    whole == if rest.None? then None else Some(passed + rest.value)
  }

  lemma ContinuesOn(whole: Option<seq<string>>, passed: seq<string>, x: string, rest: Option<seq<string>>)
    requires Continues(whole, passed, if rest.None? then None else Some([x] + rest.value))
    ensures Continues(whole, passed + [x], rest)
  {
    if rest.Some? { assert passed + ([x] + rest.value) == passed + [x] + rest.value; }
  }

  lemma ContinuesFrom(whole: Option<seq<string>>)
    ensures Continues(whole, [], whole)
  {
    if whole.Some? { assert [] + whole.value == whole.value; }
  }

  /** Charges one Decision step: seven objects and six references, in the order they are loaded. */
  method ChargeStep(work: AuthorityWork, l: Limits) returns (ok: bool)
    modifies work
    ensures ok <==> old(work.nodes) + NODES_PER_STEP - 1 <= l.maxNodes && old(work.edges) + EDGES_PER_STEP <= l.maxEdges
    ensures ok ==> work.nodes == old(work.nodes) + NODES_PER_STEP - 1 && work.edges == old(work.edges) + EDGES_PER_STEP
  {
    ok := work.Edges(2, l);
    if !ok {
      return;
    }
    var i := 0;
    while i < 3
      invariant 0 <= i <= 3 && work.nodes == old(work.nodes) + i && work.edges == old(work.edges) + 2
      invariant work.edges <= l.maxEdges && (i > 0 ==> work.nodes <= l.maxNodes)
    {
      ok := work.Node(l);
      if !ok {
        return;
      }
      i := i + 1;
    }
    ok := work.Edges(4, l);
    if !ok {
      return;
    }
    while i < 6
      invariant 3 <= i <= 6 && work.nodes == old(work.nodes) + i && work.edges == old(work.edges) + EDGES_PER_STEP
      invariant work.edges <= l.maxEdges && work.nodes <= l.maxNodes
    {
      ok := work.Node(l);
      if !ok {
        return;
      }
      i := i + 1;
    }
    ok := true;
  }

  method VerifyPriorDecisionChain(o: Objects, head: string, l: Limits, work: AuthorityWork)
    returns (ok: bool, ghost chain: seq<string>)
    modifies work
    ensures ok <==> Walk(o, head, {}, l.maxNodes - old(work.nodes), l.maxEdges - old(work.edges)).Some?
    ensures ok ==> Walk(o, head, {}, l.maxNodes - old(work.nodes), l.maxEdges - old(work.edges)) == Some(chain)
    ensures ok ==> work.nodes == old(work.nodes) + 2 + NODES_PER_STEP * (|chain| - 1)
    ensures ok ==> work.edges == old(work.edges) + 2 + EDGES_PER_STEP * (|chain| - 1)
  {
    hide IsStep, IsBoot;
    var cursor, visited: set<string> := head, {};
    chain := [];
    ghost var whole := Walk(o, head, {}, l.maxNodes - work.nodes, l.maxEdges - work.edges);
    ContinuesFrom(whole);
    while true
      invariant Continues(whole, chain, Walk(o, cursor, visited, l.maxNodes - work.nodes, l.maxEdges - work.edges))
      invariant work.nodes == old(work.nodes) + NODES_PER_STEP * |chain|
                && work.edges == old(work.edges) + EDGES_PER_STEP * |chain|
      decreases if work.nodes > l.maxNodes then 0 else l.maxNodes - work.nodes + 1
    {
      if cursor in visited {
        return false, chain;
      }
      ok := work.Node(l);
      if !ok {
        return;
      }
      var commit := o.commit(cursor);
      if commit.Checkpoint? {
        if !IsBoot(o, cursor) {
          return false, chain;
        }
        ok := work.Node(l);
        if !ok {
          return;
        }
        ok := work.Edges(2, l);
        chain := chain + [cursor];
        return;
      }
      if !commit.Decision? || !IsStep(o, cursor, commit.parent) {
        return false, chain;
      }
      ghost var nodes, edges := l.maxNodes - work.nodes + 1 - NODES_PER_STEP, l.maxEdges - work.edges - EDGES_PER_STEP;
      ok := ChargeStep(work, l);
      if !ok {
        return;
      }
      ContinuesOn(whole, chain, cursor, Walk(o, commit.parent, visited + {cursor}, nodes, edges));
      chain := chain + [cursor];
      visited := visited + {cursor};
      cursor := commit.parent;
    }
  }

  method VerifyBaseAuthority(o: Objects, snapshot: string, l: Limits, work: AuthorityWork)
    returns (ok: bool, ghost path: seq<string>)
    modifies work
    ensures ok <==> BaseWalk(o, snapshot, {}, l.maxNodes - old(work.nodes), l.maxEdges - old(work.edges)).Some?
    ensures ok ==> BaseWalk(o, snapshot, {}, l.maxNodes - old(work.nodes), l.maxEdges - old(work.edges)) == Some(path)
    ensures ok ==> work.nodes == old(work.nodes) + |path| + CONTROL_NODES
    ensures ok ==> work.edges == old(work.edges) + BASE_EDGES * (|path| - 1) + CONTROL_EDGES
  {
    var cursor, visited: set<string> := snapshot, {};
    path := [];
    ghost var whole := BaseWalk(o, snapshot, {}, l.maxNodes - work.nodes, l.maxEdges - work.edges);
    ContinuesFrom(whole);
    while true
      invariant Continues(whole, path, BaseWalk(o, cursor, visited, l.maxNodes - work.nodes, l.maxEdges - work.edges))
      invariant work.nodes == old(work.nodes) + |path| && work.edges == old(work.edges) + BASE_EDGES * |path|
      decreases if work.nodes > l.maxNodes then 0 else l.maxNodes - work.nodes + 1
    {
      if cursor in visited {
        return false, path;
      }
      ok := work.Node(l);
      if !ok {
        return;
      }
      var tree := o.tree(cursor);
      if tree.Proposed? {
        ghost var nodes, edges := l.maxNodes - work.nodes, l.maxEdges - work.edges - BASE_EDGES;
        ok := work.Edges(BASE_EDGES, l);
        if !ok {
          return;
        }
        ContinuesOn(whole, path, cursor, BaseWalk(o, tree.base, visited + {cursor}, nodes, edges));
        path := path + [cursor];
        visited := visited + {cursor};
        cursor := tree.base;
        continue;
      }
      if !tree.Boot? {
        return false, path;
      }
      ok := VerifyControl(o, tree.control, l, work);
      path := path + [cursor];
      return;
    }
  }

  /** The bootstrap's control tree: its entries and records are charged before they are compared. */
  method VerifyControl(o: Objects, control: string, l: Limits, work: AuthorityWork) returns (ok: bool)
    modifies work
    ensures ok <==> && old(work.nodes) + CONTROL_NODES <= l.maxNodes && old(work.edges) + CONTROL_EDGES <= l.maxEdges
                    && o.controlOk(control)
    ensures ok ==> work.nodes == old(work.nodes) + CONTROL_NODES && work.edges == old(work.edges) + CONTROL_EDGES
  {
    ok := work.Edges(2, l);
    if !ok {
      return;
    }
    ok := work.Node(l);
    if !ok {
      return;
    }
    ok := work.Edges(6, l);
    if !ok {
      return;
    }
    var i := 0;
    while i < 5
      invariant 0 <= i <= 5 && work.nodes == old(work.nodes) + 1 + i && work.edges == old(work.edges) + CONTROL_EDGES
      invariant work.nodes <= l.maxNodes && work.edges <= l.maxEdges
    {
      ok := work.Node(l);
      if !ok {
        return;
      }
      i := i + 1;
    }
    ok := o.controlOk(control);
  }

  // ----- Both walks on one account -----

  /** A chain whose two walks together fit the limits, and whose bootstrap's control tree passes. */
  ghost predicate Authorised(o: Objects, head: string, l: Limits, chain: seq<string>) {
    && IsChain(o, chain) && chain[0] == head
    && o.tree(HeadSnapshot(o, LastOf(chain))).Boot? && o.controlOk(o.tree(HeadSnapshot(o, LastOf(chain))).control)
    && 2 + NODES_PER_STEP * (|chain| - 1) + 1 + AdoptedCount(o, chain) + CONTROL_NODES <= l.maxNodes
    && 2 + EDGES_PER_STEP * (|chain| - 1) + BASE_EDGES * AdoptedCount(o, chain) + CONTROL_EDGES <= l.maxEdges
  }

  /**
   * The authority check of a checkout: the Decision walk and then the base walk, charged to one
   * account. It passes exactly when a well-formed chain starts at the head, its bootstrap's control
   * tree passes and the work of both walks together, counted from the chain alone, fits the limits.
   */
  method VerifyAuthority(o: Objects, head: string, l: Limits) returns (ok: bool)
    ensures ok <==> exists chain :: Authorised(o, head, l, chain)
  {
    hide Walk, BaseWalk, IsChain, AdoptedCount, BaseOf, Authorised;
    var work := new AuthorityWork();
    ghost var chain, path;
    ok, chain := VerifyPriorDecisionChain(o, head, l, work);
    if !ok {
      NoChainFits(o, head, l);
      return;
    }
    ghost var nodes, edges := l.maxNodes - work.nodes, l.maxEdges - work.edges;
    ok, path := VerifyBaseAuthority(o, HeadSnapshot(o, head), l, work);
    SecondWalkDecides(o, head, l, chain, nodes, edges);
  }

  lemma NoChainFits(o: Objects, head: string, l: Limits)
    requires Walk(o, head, {}, l.maxNodes, l.maxEdges).None?
    ensures !exists chain :: Authorised(o, head, l, chain)
  {
    hide Walk, IsChain, AdoptedCount;
    forall chain ensures !Authorised(o, head, l, chain) {
      ChainAcceptedExactly(o, head, chain, l.maxNodes, l.maxEdges);
    }
  }

  lemma SecondWalkDecides(o: Objects, head: string, l: Limits, chain: seq<string>, nodes: int, edges: int)
    requires Walk(o, head, {}, l.maxNodes, l.maxEdges) == Some(chain)
    requires nodes == l.maxNodes - 2 - NODES_PER_STEP * (|chain| - 1)
             && edges == l.maxEdges - 2 - EDGES_PER_STEP * (|chain| - 1)
    ensures BaseWalk(o, HeadSnapshot(o, head), {}, nodes, edges).Some? <==> exists c :: Authorised(o, head, l, c)
  {
    hide Walk, BaseWalk, IsChain, AdoptedCount, BaseOf;
    ChainAcceptedExactly(o, head, chain, l.maxNodes, l.maxEdges);
    BothWalksEndAtTheSameControlTree(o, head, l.maxNodes, l.maxEdges, nodes, edges);
    assert BaseWalk(o, HeadSnapshot(o, head), {}, nodes, edges).Some? <==> Authorised(o, head, l, chain);
    forall c ensures Authorised(o, head, l, c) ==> c == chain {
      if Authorised(o, head, l, c) { ChainIsUnique(o, c, chain); }
    }
  }
}
