/**
 * Checking a checkout's authority: one walk follows the Decision commits back to the bootstrap,
 * another follows `base` entries of snapshots. Both must end at the same control tree.
 */
module DecisionChain {
  import opened Optional

  datatype Disposition = AdoptedUnchanged | Rejected | Deferred | Unknown

  datatype Commit =
    | Checkpoint(snapshot: string)
    | Decision(parent: string, snapshot: string, feedback: string)
    | Proposal(parent: string, snapshot: string, activity: string)
    | OtherCommit

  datatype Tree =
    | Boot(control: string, site: string)
    | Proposed(activity: string, base: string, context: string, site: string)
    | OtherTree

  datatype Feedback = Feedback(proposal: string, disposition: Disposition)

  /**
   * Objects by name. `bound` stands for the record fields one step compares besides these
   * (authors, context, activity), and `controlOk` for the checks on the control tree's records.
   */
  datatype Objects = Objects(
    commit: string -> Commit, tree: string -> Tree, feedback: string -> Feedback,
    bound: string -> bool, controlOk: string -> bool)

  datatype Limits = Limits(maxNodes: nat, maxEdges: nat)

  // ----- Well-formed chains -----

  function SnapshotOf(c: Commit): Option<string> {
    match c
    case Checkpoint(s) => Some(s)
    case Decision(_, s, _) => Some(s)
    case Proposal(_, s, _) => Some(s)
    case OtherCommit => None
  }

  predicate IsBoot(o: Objects, head: string) {
    && o.commit(head).Checkpoint? && o.bound(head)
    && o.tree(o.commit(head).snapshot).Boot?
  }

  function ProposalOf(o: Objects, head: string): string
    requires o.commit(head).Decision?
  {
    o.feedback(o.commit(head).feedback).proposal
  }

  function DispositionOf(o: Objects, head: string): Disposition
    requires o.commit(head).Decision?
  {
    o.feedback(o.commit(head).feedback).disposition
  }

  /**
   * One Decision on its parent: the proposal it decided builds on that parent, and the snapshot is
   * the one the disposition selects.
   */
  predicate IsStep(o: Objects, head: string, parent: string) {
    && o.commit(head).Decision? && o.commit(head).parent == parent && o.bound(head)
    && var proposal := o.commit(ProposalOf(o, head));
       && proposal.Proposal? && proposal.parent == parent
       && o.tree(proposal.snapshot).Proposed?
       && var t := o.tree(proposal.snapshot);
          && t.activity == proposal.activity
          && SnapshotOf(o.commit(parent)) == Some(t.base)
          && match DispositionOf(o, head)
             case AdoptedUnchanged => o.commit(head).snapshot == proposal.snapshot
             case Rejected => o.commit(head).snapshot == t.base
             case Deferred => o.commit(head).snapshot == t.base
             case Unknown => false
  }

  /** Decision heads from the newest back to the bootstrap. */
  predicate IsChain(o: Objects, chain: seq<string>)
    decreases |chain|
  {
    && chain != []
    && if |chain| == 1 then IsBoot(o, chain[0]) else IsStep(o, chain[0], chain[1]) && IsChain(o, chain[1..])
  }

  // ----- The first walk -----

  const NODES_PER_STEP := 7
  const EDGES_PER_STEP := 6

  /** The walk with what is left of its budgets: the chain it accepted. */
  function Walk(o: Objects, cursor: string, visited: set<string>, nodes: int, edges: int): Option<seq<string>>
    decreases if nodes < 0 then 0 else nodes
  {
    if cursor in visited || nodes < 1 then None
    else
      match o.commit(cursor)
      case Checkpoint(_) => if IsBoot(o, cursor) && nodes >= 2 && edges >= 2 then Some([cursor]) else None
      case Decision(parent, _, _) =>
        if !IsStep(o, cursor, parent) || nodes < NODES_PER_STEP || edges < EDGES_PER_STEP then None
        else
          (match Walk(o, parent, visited + {cursor}, nodes - NODES_PER_STEP, edges - EDGES_PER_STEP)
           case None => None
           case Some(rest) => Some([cursor] + rest))
      case _ => None
  }

  lemma {:induction false} WalkFindsChain(o: Objects, cursor: string, visited: set<string>, nodes: int, edges: int)
    requires Walk(o, cursor, visited, nodes, edges).Some?
    ensures var chain := Walk(o, cursor, visited, nodes, edges).value;
            && IsChain(o, chain) && chain[0] == cursor
            && 2 + NODES_PER_STEP * (|chain| - 1) <= nodes && 2 + EDGES_PER_STEP * (|chain| - 1) <= edges
    decreases if nodes < 0 then 0 else nodes
  {
    hide IsStep, IsBoot;
    if o.commit(cursor).Decision? {
      var parent := o.commit(cursor).parent;
      WalkFindsChain(o, parent, visited + {cursor}, nodes - NODES_PER_STEP, edges - EDGES_PER_STEP);
      var rest := Walk(o, parent, visited + {cursor}, nodes - NODES_PER_STEP, edges - EDGES_PER_STEP).value;
      assert ([cursor] + rest)[1..] == rest;
    }
  }

  /** A chain is determined by its head. */
  lemma {:induction false} ChainIsUnique(o: Objects, a: seq<string>, b: seq<string>)
    requires IsChain(o, a) && IsChain(o, b) && a[0] == b[0]
    ensures a == b
    decreases |a|
  {
    if |a| > 1 && |b| > 1 {
      ChainIsUnique(o, a[1..], b[1..]);
      assert a == [a[0]] + a[1..] && b == [b[0]] + b[1..];
    }
  }

  /** So no head repeats: the rest of the chain from a repeated head would have two lengths. */
  lemma {:induction false} TailIsChain(o: Objects, chain: seq<string>, i: nat)
    requires IsChain(o, chain) && i < |chain|
    ensures IsChain(o, chain[i..])
  {
    hide IsStep, IsBoot;
    if i > 0 {
      TailIsChain(o, chain[1..], i - 1);
      assert chain[1..][i - 1..] == chain[i..];
    } else {
      assert chain[0..] == chain;
    }
  }

  lemma ChainNeverRepeats(o: Objects, chain: seq<string>, i: nat, j: nat)
    requires IsChain(o, chain) && i < j < |chain|
    ensures chain[i] != chain[j]
  {
    hide IsChain;
    TailIsChain(o, chain, i);
    TailIsChain(o, chain, j);
    if chain[i] == chain[j] {
      ChainIsUnique(o, chain[i..], chain[j..]);
    }
  }

  predicate Before(chain: seq<string>, k: nat, x: string) { exists i | 0 <= i < k && i < |chain| :: chain[i] == x }

  lemma {:induction false} ChainIsFound(o: Objects, chain: seq<string>, k: nat, visited: set<string>, nodes: int,
                                        edges: int)
    requires IsChain(o, chain) && k < |chain| && (forall x | x in visited :: Before(chain, k, x))
    requires 2 + NODES_PER_STEP * (|chain| - 1 - k) <= nodes && 2 + EDGES_PER_STEP * (|chain| - 1 - k) <= edges
    ensures Walk(o, chain[k], visited, nodes, edges) == Some(chain[k..])
    decreases |chain| - k
  {
    hide IsStep, IsBoot, IsChain;
    forall i | 0 <= i < k ensures chain[i] != chain[k] {
      ChainNeverRepeats(o, chain, i, k);
    }
    TailIsChain(o, chain, k);
    NodeOnChain(o, chain[k..]);
    if k == |chain| - 1 {
      assert chain[k..] == [chain[k]];
    } else {
      forall x | x in visited + {chain[k]} ensures Before(chain, k + 1, x) {
        if x in visited { LaterBefore(chain, k, x); } else { assert chain[k] == x; }
      }
      ChainIsFound(o, chain, k + 1, visited + {chain[k]}, nodes - NODES_PER_STEP, edges - EDGES_PER_STEP);
      assert chain[k..] == [chain[k]] + chain[k + 1..];
      assert chain[k..][1] == chain[k + 1];
    }
  }

  lemma LaterBefore(chain: seq<string>, k: nat, x: string)
    requires Before(chain, k, x)
    ensures Before(chain, k + 1, x)
  {
  }

  lemma NodeOnChain(o: Objects, chain: seq<string>)
    requires IsChain(o, chain)
    ensures |chain| == 1 ==> IsBoot(o, chain[0]) && o.commit(chain[0]).Checkpoint?
    ensures |chain| > 1 ==>
              IsStep(o, chain[0], chain[1]) && o.commit(chain[0]).Decision? && o.commit(chain[0]).parent == chain[1]
  {
  }

  /** The walk accepts a head exactly when a well-formed chain starts there and its work fits the budgets. */
  lemma ChainAcceptedExactly(o: Objects, head: string, chain: seq<string>, nodes: nat, edges: nat)
    ensures Walk(o, head, {}, nodes, edges) == Some(chain) <==>
            && IsChain(o, chain) && chain[0] == head
            && 2 + NODES_PER_STEP * (|chain| - 1) <= nodes && 2 + EDGES_PER_STEP * (|chain| - 1) <= edges
  {
    hide Walk, IsStep, IsBoot;
    if Walk(o, head, {}, nodes, edges) == Some(chain) {
      WalkFindsChain(o, head, {}, nodes, edges);
    }
    if IsChain(o, chain) && chain[0] == head
       && 2 + NODES_PER_STEP * (|chain| - 1) <= nodes && 2 + EDGES_PER_STEP * (|chain| - 1) <= edges {
      ChainIsFound(o, chain, 0, {}, nodes, edges);
      assert chain[0..] == chain;
    }
  }

  // ----- The second walk -----

  /** Snapshots from one back to the bootstrap's, each the `base` of the one before. */
  predicate IsBasePath(o: Objects, path: seq<string>)
    decreases |path|
  {
    && path != []
    && if |path| == 1 then o.tree(path[0]).Boot?
       else o.tree(path[0]).Proposed? && o.tree(path[0]).base == path[1] && IsBasePath(o, path[1..])
  }

  const BASE_EDGES := 4
  const CONTROL_NODES := 6
  const CONTROL_EDGES := 8

  function BaseWalk(o: Objects, cursor: string, visited: set<string>, nodes: int, edges: int): Option<seq<string>>
    decreases if nodes < 0 then 0 else nodes
  {
    if cursor in visited || nodes < 1 then None
    else
      match o.tree(cursor)
      case Proposed(_, base, _, _) =>
        if edges < BASE_EDGES then None
        else
          (match BaseWalk(o, base, visited + {cursor}, nodes - 1, edges - BASE_EDGES)
           case None => None
           case Some(rest) => Some([cursor] + rest))
      case Boot(control, _) =>
        if nodes - 1 >= CONTROL_NODES && edges >= CONTROL_EDGES && o.controlOk(control) then Some([cursor]) else None
      case OtherTree => None
  }

  predicate BaseFits(o: Objects, path: seq<string>, nodes: int, edges: int)
    requires IsBasePath(o, path)
  {
    && |path| + CONTROL_NODES <= nodes && BASE_EDGES * (|path| - 1) + CONTROL_EDGES <= edges
    && o.controlOk(ControlAt(o, path))
  }

  function ControlAt(o: Objects, path: seq<string>): string
    requires IsBasePath(o, path)
    decreases |path|
  {
    if |path| == 1 then o.tree(path[0]).control else ControlAt(o, path[1..])
  }

  lemma {:induction false} BaseWalkFindsPath(o: Objects, cursor: string, visited: set<string>, nodes: int, edges: int)
    requires BaseWalk(o, cursor, visited, nodes, edges).Some?
    ensures var path := BaseWalk(o, cursor, visited, nodes, edges).value;
            IsBasePath(o, path) && path[0] == cursor && BaseFits(o, path, nodes, edges)
    decreases if nodes < 0 then 0 else nodes
  {
    if o.tree(cursor).Proposed? {
      var base := o.tree(cursor).base;
      BaseWalkFindsPath(o, base, visited + {cursor}, nodes - 1, edges - BASE_EDGES);
      var rest := BaseWalk(o, base, visited + {cursor}, nodes - 1, edges - BASE_EDGES).value;
      assert ([cursor] + rest)[1..] == rest;
    }
  }

  lemma {:induction false} BasePathIsUnique(o: Objects, a: seq<string>, b: seq<string>)
    requires IsBasePath(o, a) && IsBasePath(o, b) && a[0] == b[0]
    ensures a == b
    decreases |a|
  {
    if |a| > 1 && |b| > 1 {
      BasePathIsUnique(o, a[1..], b[1..]);
      assert a == [a[0]] + a[1..] && b == [b[0]] + b[1..];
    }
  }

  lemma {:induction false} BaseTail(o: Objects, path: seq<string>, i: nat)
    requires IsBasePath(o, path) && i < |path|
    ensures IsBasePath(o, path[i..])
    ensures ControlAt(o, path[i..]) == ControlAt(o, path)
  {
    if i > 0 {
      BaseTail(o, path[1..], i - 1);
      assert path[1..][i - 1..] == path[i..];
    } else {
      assert path[0..] == path;
    }
  }

  lemma BasePathNeverRepeats(o: Objects, path: seq<string>, i: nat, j: nat)
    requires IsBasePath(o, path) && i < j < |path|
    ensures path[i] != path[j]
  {
    hide IsBasePath, ControlAt;
    BaseTail(o, path, i);
    BaseTail(o, path, j);
    if path[i] == path[j] {
      BasePathIsUnique(o, path[i..], path[j..]);
    }
  }

  lemma {:induction false} BasePathIsFound(o: Objects, path: seq<string>, k: nat, visited: set<string>, nodes: int,
                                           edges: int)
    requires IsBasePath(o, path) && k < |path| && (forall x | x in visited :: Before(path, k, x))
    requires |path| - k + CONTROL_NODES <= nodes && BASE_EDGES * (|path| - 1 - k) + CONTROL_EDGES <= edges
    requires o.controlOk(ControlAt(o, path))
    ensures BaseWalk(o, path[k], visited, nodes, edges) == Some(path[k..])
    decreases |path| - k
  {
    hide IsBasePath, ControlAt;
    forall i | 0 <= i < k ensures path[i] != path[k] {
      BasePathNeverRepeats(o, path, i, k);
    }
    BaseTail(o, path, k);
    NodeOnBasePath(o, path[k..]);
    if k == |path| - 1 {
      assert path[k..] == [path[k]];
    } else {
      forall x | x in visited + {path[k]} ensures Before(path, k + 1, x) {
        if x in visited { LaterBefore(path, k, x); } else { assert path[k] == x; }
      }
      BasePathIsFound(o, path, k + 1, visited + {path[k]}, nodes - 1, edges - BASE_EDGES);
      assert path[k..] == [path[k]] + path[k + 1..];
      assert path[k..][1] == path[k + 1];
    }
  }

  lemma NodeOnBasePath(o: Objects, path: seq<string>)
    requires IsBasePath(o, path)
    ensures |path| == 1 ==> o.tree(path[0]).Boot? && ControlAt(o, path) == o.tree(path[0]).control
    ensures |path| > 1 ==> o.tree(path[0]).Proposed? && o.tree(path[0]).base == path[1]
  {
  }

  /** The base walk accepts exactly the base paths that fit its budgets and end at a good control tree. */
  lemma BaseAcceptedExactly(o: Objects, start: string, path: seq<string>, nodes: int, edges: int)
    ensures BaseWalk(o, start, {}, nodes, edges) == Some(path) <==>
            IsBasePath(o, path) && path[0] == start && BaseFits(o, path, nodes, edges)
  {
    hide BaseWalk, ControlAt;
    if BaseWalk(o, start, {}, nodes, edges) == Some(path) {
      BaseWalkFindsPath(o, start, {}, nodes, edges);
    }
    if IsBasePath(o, path) && path[0] == start && BaseFits(o, path, nodes, edges) {
      BasePathIsFound(o, path, 0, {}, nodes, edges);
      assert path[0..] == path;
    }
  }

  // ----- How the two walks relate -----

  predicate Adopts(o: Objects, head: string) { o.commit(head).Decision? && DispositionOf(o, head).AdoptedUnchanged? }

  function AdoptedCount(o: Objects, chain: seq<string>): nat {
    if chain == [] then 0 else (if Adopts(o, chain[0]) then 1 else 0) + AdoptedCount(o, chain[1..])
  }

  function HeadSnapshot(o: Objects, head: string): string {
    var s := SnapshotOf(o.commit(head));
    if s.Some? then s.value else ""
  }

  /** The snapshots along a chain, leaving out Decisions that kept the one before. */
  function BaseOf(o: Objects, chain: seq<string>): seq<string> {
    if chain == [] then []
    else if |chain| == 1 then [HeadSnapshot(o, chain[0])]
    else (if Adopts(o, chain[0]) then [HeadSnapshot(o, chain[0])] else []) + BaseOf(o, chain[1..])
  }

  function LastOf(xs: seq<string>): string
    requires xs != []
  {
    xs[|xs| - 1]
  }

  /**
   * A chain's snapshots form a base path, one step for each adopted Decision, from the head's
   * snapshot to the bootstrap's.
   */
  lemma {:induction false} ChainGivesBasePath(o: Objects, chain: seq<string>)
    requires IsChain(o, chain)
    ensures var path := BaseOf(o, chain);
            && IsBasePath(o, path) && |path| == 1 + AdoptedCount(o, chain)
            && path[0] == HeadSnapshot(o, chain[0]) && LastOf(path) == HeadSnapshot(o, LastOf(chain))
            && o.tree(HeadSnapshot(o, LastOf(chain))).Boot?
            && ControlAt(o, path) == o.tree(HeadSnapshot(o, LastOf(chain))).control
    decreases |chain|
  {
    if |chain| == 1 {
      assert chain[1..] == [];
    } else {
      ChainGivesBasePath(o, chain[1..]);
      var rest := BaseOf(o, chain[1..]);
      assert LastOf(chain[1..]) == LastOf(chain);
      if Adopts(o, chain[0]) {
        assert BaseOf(o, chain)[1..] == rest;
      } else {
        assert BaseOf(o, chain) == rest;
      }
    }
  }

  /**
   * If the first walk accepts a head, then the second, started at that head's snapshot, never meets
   * a snapshot twice, takes one step per adopted Decision, and ends at the bootstrap's snapshot and
   * control tree; it accepts exactly when that control tree passes and its own work fits.
   */
  lemma BothWalksEndAtTheSameControlTree(o: Objects, head: string, nodes: nat, edges: nat, baseNodes: int,
                                         baseEdges: int)
    requires Walk(o, head, {}, nodes, edges).Some?
    ensures var chain := Walk(o, head, {}, nodes, edges).value;
            var boot := HeadSnapshot(o, LastOf(chain));
            var path := BaseOf(o, chain);
            && (forall i, j | 0 <= i < j < |path| :: path[i] != path[j])
            && |path| - 1 == AdoptedCount(o, chain) && LastOf(path) == boot && o.tree(boot).Boot?
            && (BaseWalk(o, HeadSnapshot(o, head), {}, baseNodes, baseEdges) == Some(path) <==>
                  && o.controlOk(o.tree(boot).control)
                  && 1 + AdoptedCount(o, chain) + CONTROL_NODES <= baseNodes
                  && BASE_EDGES * AdoptedCount(o, chain) + CONTROL_EDGES <= baseEdges)
            && (BaseWalk(o, HeadSnapshot(o, head), {}, baseNodes, baseEdges).Some? ==>
                  BaseWalk(o, HeadSnapshot(o, head), {}, baseNodes, baseEdges) == Some(path))
  {
    hide Walk, IsChain, IsBasePath, BaseWalk, BaseOf, AdoptedCount, ControlAt;
    WalkFindsChain(o, head, {}, nodes, edges);
    var chain := Walk(o, head, {}, nodes, edges).value;
    var path := BaseOf(o, chain);
    ChainGivesBasePath(o, chain);
    ChainEndsAtBoot(o, chain);
    forall i, j | 0 <= i < j < |path| ensures path[i] != path[j] {
      BasePathNeverRepeats(o, path, i, j);
    }
    BaseAcceptedExactly(o, HeadSnapshot(o, head), path, baseNodes, baseEdges);
    if BaseWalk(o, HeadSnapshot(o, head), {}, baseNodes, baseEdges).Some? {
      BaseWalkFindsPath(o, HeadSnapshot(o, head), {}, baseNodes, baseEdges);
      BasePathIsUnique(o, BaseWalk(o, HeadSnapshot(o, head), {}, baseNodes, baseEdges).value, path);
    }
  }

  lemma {:induction false} ChainEndsAtBoot(o: Objects, chain: seq<string>)
    requires IsChain(o, chain)
    ensures IsBoot(o, LastOf(chain)) && o.tree(HeadSnapshot(o, LastOf(chain))).Boot?
    decreases |chain|
  {
    if |chain| > 1 { ChainEndsAtBoot(o, chain[1..]); }
  }

  // ----- The site -----

  function SiteOf(t: Tree): Option<string> {
    match t
    case Boot(_, site) => Some(site)
    case Proposed(_, _, _, site) => Some(site)
    case OtherTree => None
  }

  /** The site of the newest adopted proposal on a chain, or the bootstrap's when none was adopted. */
  function AdoptedSite(o: Objects, chain: seq<string>): Option<string>
    requires chain != []
  {
    if |chain| == 1 then SiteOf(o.tree(HeadSnapshot(o, chain[0])))
    else if Adopts(o, chain[0]) then SiteOf(o.tree(HeadSnapshot(o, ProposalOf(o, chain[0]))))
    else AdoptedSite(o, chain[1..])
  }

  /** The site a head shows is the one last adopted, whatever was rejected or deferred since. */
  lemma {:induction false} HeadShowsLastAdoptedSite(o: Objects, chain: seq<string>)
    requires IsChain(o, chain)
    ensures SiteOf(o.tree(HeadSnapshot(o, chain[0]))) == AdoptedSite(o, chain) && AdoptedSite(o, chain).Some?
    decreases |chain|
  {
    if |chain| > 1 { HeadShowsLastAdoptedSite(o, chain[1..]); }
  }

  // ----- A chain said object by object -----

  /** What the objects behind one Decision must be, field by field. */
  predicate Links(o: Objects, head: string, parent: string, feedback: string, proposal: string, proposed: string,
                  activity: string, base: string, context: string, site: string, disposition: Disposition)
  {
    && o.commit(head) == Decision(parent, if disposition.AdoptedUnchanged? then proposed else base, feedback)
    && o.feedback(feedback) == Feedback(proposal, disposition) && !disposition.Unknown?
    && o.commit(proposal) == Proposal(parent, proposed, activity)
    && o.tree(proposed) == Proposed(activity, base, context, site)
    && (o.commit(parent).Checkpoint? || o.commit(parent).Decision? || o.commit(parent).Proposal?)
    && HeadSnapshot(o, parent) == base
    && o.bound(head)
  }

  ghost predicate Linked(o: Objects, head: string, parent: string) {
    exists feedback, proposal, proposed, activity, base, context, site, disposition ::
      Links(o, head, parent, feedback, proposal, proposed, activity, base, context, site, disposition)
  }

  lemma StepIsLinked(o: Objects, head: string, parent: string)
    ensures IsStep(o, head, parent) <==> Linked(o, head, parent)
  {
    if IsStep(o, head, parent) {
      var p := o.commit(ProposalOf(o, head));
      var t := o.tree(p.snapshot);
      assert Links(o, head, parent, o.commit(head).feedback, ProposalOf(o, head), p.snapshot, p.activity, t.base,
                   t.context, t.site, DispositionOf(o, head));
    }
  }

  /** A chain ends at a bootstrap checkpoint, and every Decision on it is linked to the head before it. */
  ghost predicate LinkedThroughout(o: Objects, chain: seq<string>) {
    && chain != [] && IsBoot(o, LastOf(chain))
    && forall i | 0 <= i < |chain| - 1 :: Linked(o, chain[i], chain[i + 1])
  }

  lemma {:induction false} ChainIsLinked(o: Objects, chain: seq<string>)
    ensures IsChain(o, chain) <==> LinkedThroughout(o, chain)
    decreases |chain|
  {
    hide IsStep, IsBoot, Linked;
    if |chain| > 1 {
      var rest := chain[1..];
      ChainIsLinked(o, rest);
      StepIsLinked(o, chain[0], chain[1]);
      assert LastOf(rest) == LastOf(chain);
      assert forall i | 0 <= i < |rest| :: rest[i] == chain[i + 1];
      if LinkedThroughout(o, rest) && Linked(o, chain[0], chain[1]) {
        forall i | 0 <= i < |chain| - 1 ensures Linked(o, chain[i], chain[i + 1]) {
          if i > 0 { assert Linked(o, rest[i - 1], rest[i - 1 + 1]); }
        }
      }
      if LinkedThroughout(o, chain) {
        forall i | 0 <= i < |rest| - 1 ensures Linked(o, rest[i], rest[i + 1]) {
          assert Linked(o, chain[i + 1], chain[i + 1 + 1]);
        }
        assert Linked(o, chain[0], chain[0 + 1]);
      }
    }
  }
}
