/**
 * Sequential review: any number of preparers and deciders against one Decision Ref and one
 * namespace of Proposal Refs. Every step is one Ref transaction or one read.
 */
module Review {
  import opened Optional
  import Approval

  /** What a commit's name determines, as far as review history reads it. */
  datatype Node = Root | Decision(parent: string, decided: string) | Proposal(parent: string) | Other

  /** Contents by name, and the attempt id derived from a Decision head; neither ever changes. */
  datatype Names = Names(node: string -> Node, attempt: string -> string)

  datatype Worker =
    | Ready
    | Looked(base: string)
    | Based(base: string)
    | Registered(base: string, proposal: string, sealedHead: Option<string>)
    | Admitted(proposal: string)
    | Faulted(proposal: string)
    | Deciding(base: string, refName: string, proposal: string, candidate: string)

  /** The Decision heads so far, the Proposal Refs of the namespace, and what each worker is doing. */
  datatype World = World(history: seq<string>, refs: map<string, string>, workers: map<nat, Worker>)

  const HISTORY_BOUND := 10_000

  function Current(w: World): string
    requires w.history != []
  {
    w.history[|w.history| - 1]
  }

  function Lookup(refs: map<string, string>, name: string): Option<string> {
    if name in refs then Some(refs[name]) else None
  }

  function At(w: World, t: nat): Worker { if t in w.workers then w.workers[t] else Ready }

  function With(w: World, t: nat, s: Worker): World { w.(workers := w.workers[t := s]) }

  // ----- Decision history -----

  /** Decision heads from the bootstrap checkpoint on, each the sole child of the one before. */
  predicate History(names: Names, h: seq<string>) {
    && h != [] && names.node(h[0]).Root?
    && forall i | 0 < i < |h| :: IsStep(names, h, i)
  }

  predicate IsStep(names: Names, h: seq<string>, i: nat)
    requires 0 < i < |h|
  {
    names.node(h[i]).Decision? && names.node(h[i]).parent == h[i - 1]
  }

  function DecidedIn(names: Names, h: seq<string>): set<string> {
    set i | 0 <= i < |h| && names.node(h[i]).Decision? :: names.node(h[i]).decided
  }

  lemma {:induction false} HistoryNeverRepeats(names: Names, h: seq<string>, i: nat, j: nat)
    requires History(names, h) && i < j < |h|
    ensures h[i] != h[j]
    decreases i
  {
    assert IsStep(names, h, j);
    if i > 0 {
      assert IsStep(names, h, i);
      HistoryNeverRepeats(names, h, i - 1, j - 1);
    }
  }

  /** What the walk from a head finds: the decided proposals, or nothing for a malformed or overlong history. */
  function DecidedWalk(names: Names, cursor: string, visited: set<string>, left: nat): Option<set<string>>
    decreases left
  {
    if left == 0 || cursor in visited then None
    else
      match names.node(cursor)
      case Root => Some({})
      case Decision(parent, proposal) =>
        (match DecidedWalk(names, parent, visited + {cursor}, left - 1)
         case None => None
         case Some(found) => Some(found + {proposal}))
      case _ => None
  }

  /** Walks from a head to the bootstrap, collecting what each Decision decided. */
  method DecidedProposalHeads(names: Names, head: string) returns (r: Option<set<string>>)
    ensures r == DecidedWalk(names, head, {}, HISTORY_BOUND)
  {
    var decided: set<string>, visited: set<string> := {}, {};
    var cursor := head;
    ghost var whole := DecidedWalk(names, head, {}, HISTORY_BOUND);
    var left := HISTORY_BOUND;
    JoinNothing(whole);
    while left > 0
      invariant 0 <= left <= HISTORY_BOUND
      invariant whole == Joined(decided, DecidedWalk(names, cursor, visited, left))
    {
      if cursor in visited {
        return None;
      }
      var node := names.node(cursor);
      if node.Root? {
        return Some(decided);
      }
      if !node.Decision? {
        return None;
      }
      ghost var rest := DecidedWalk(names, node.parent, visited + {cursor}, left - 1);
      JoinOne(decided, node.decided, rest);
      decided := decided + {node.decided};
      visited := visited + {cursor};
      cursor := node.parent;
      left := left - 1;
    }
    return None;
  }

  function Joined(a: set<string>, b: Option<set<string>>): Option<set<string>> {
    if b.None? then None else Some(a + b.value)
  }

  lemma JoinNothing(b: Option<set<string>>)
    ensures Joined({}, b) == b
  {
    if b.Some? { assert {} + b.value == b.value; }
  }

  lemma JoinOne(a: set<string>, x: string, b: Option<set<string>>)
    ensures Joined(a, Joined({x}, b)) == Joined(a + {x}, b)
    ensures Joined({x}, b) == if b.None? then None else Some(b.value + {x})
  {
    if b.Some? {
      assert a + ({x} + b.value) == (a + {x}) + b.value;
      assert {x} + b.value == b.value + {x};
    }
  }

  /** On a well-formed history the walk finds exactly what was decided, unless the history is over the bound. */
  lemma {:induction false} WalkFindsHistory(names: Names, h: seq<string>, k: nat, visited: set<string>, left: nat)
    requires History(names, h) && k < |h|
    requires forall x | x in visited :: Later(h, k, x)
    ensures DecidedWalk(names, h[k], visited, left) == if k < left then Some(DecidedIn(names, h[..k + 1])) else None
    decreases k
  {
    hide History, DecidedIn;
    if left > 0 {
      NotVisited(names, h, k, visited);
      PrefixDecided(names, h, k);
      NodeOnHistory(names, h, k);
      if k > 0 {
        forall x | x in visited + {h[k]} ensures Later(h, k - 1, x) {
          if x in visited { LaterStill(h, k, x); } else { assert h[k] == x; }
        }
        WalkFindsHistory(names, h, k - 1, visited + {h[k]}, left - 1);
        assert h[..k - 1 + 1] == h[..k];
      } else {
        assert DecidedIn(names, h[..k + 1]) == {};
      }
    }
  }

  predicate Later(h: seq<string>, k: int, x: string) { exists i | k < i < |h| :: 0 <= i && h[i] == x }

  lemma LaterStill(h: seq<string>, k: int, x: string)
    requires Later(h, k, x)
    ensures Later(h, k - 1, x)
  {
  }

  lemma NotVisited(names: Names, h: seq<string>, k: nat, visited: set<string>)
    requires History(names, h) && k < |h| && forall x | x in visited :: Later(h, k, x)
    ensures h[k] !in visited
  {
    hide History;
    forall i | k < i < |h| ensures h[i] != h[k] {
      HistoryNeverRepeats(names, h, k, i);
    }
  }

  /** A history node is the bootstrap at the start and a Decision with its predecessor as parent after it. */
  lemma NodeOnHistory(names: Names, h: seq<string>, k: nat)
    requires History(names, h) && k < |h|
    ensures k == 0 ==> names.node(h[k]).Root?
    ensures k > 0 ==> names.node(h[k]).Decision? && names.node(h[k]).parent == h[k - 1]
  {
    if k > 0 { assert IsStep(names, h, k); }
  }

  lemma PrefixDecided(names: Names, h: seq<string>, k: nat)
    requires k < |h|
    ensures DecidedIn(names, h[..0]) == {}
    ensures DecidedIn(names, h[..k + 1]) ==
            DecidedIn(names, h[..k]) + (if names.node(h[k]).Decision? then {names.node(h[k]).decided} else {})
  {
    assert h[..k + 1] == h[..k] + [h[k]];
    DecidedSnoc(names, h[..k], h[k]);
  }

  lemma DecidedSnoc(names: Names, h: seq<string>, x: string)
    ensures DecidedIn(names, h + [x]) ==
              DecidedIn(names, h) + (if names.node(x).Decision? then {names.node(x).decided} else {})
  {
    var n := h + [x];
    assert n[|h|] == x;
    forall d ensures d in DecidedIn(names, n) <==>
      d in DecidedIn(names, h) + (if names.node(x).Decision? then {names.node(x).decided} else {})
    {
      if d in DecidedIn(names, h) {
        var i :| 0 <= i < |h| && names.node(h[i]).Decision? && names.node(h[i]).decided == d;
        assert n[i] == h[i];
      }
      if d in DecidedIn(names, n) {
        var i :| 0 <= i < |n| && names.node(n[i]).Decision? && names.node(n[i]).decided == d;
        if i < |h| { assert h[i] == n[i]; }
      }
    }
  }

  /** The walk the availability check makes. */
  lemma DecidedWalkIsExact(names: Names, h: seq<string>)
    requires History(names, h)
    ensures DecidedWalk(names, h[|h| - 1], {}, HISTORY_BOUND) ==
            if |h| <= HISTORY_BOUND then Some(DecidedIn(names, h)) else None
  {
    WalkFindsHistory(names, h, |h| - 1, {}, HISTORY_BOUND);
    assert h[..|h|] == h;
  }

  // ----- Steps -----

  /** A Proposal Ref whose head no Decision on the current chain has decided. */
  predicate Open(names: Names, w: World, name: string) {
    name in w.refs && w.refs[name] !in DecidedIn(names, w.history)
  }

  /** The availability check: the history can be walked, and every Ref of the namespace has been decided on it. */
  predicate Available(names: Names, w: World)
    requires w.history != []
  {
    var decided := DecidedWalk(names, Current(w), {}, HISTORY_BOUND);
    decided.Some? && forall name | name in w.refs :: w.refs[name] in decided.value
  }

  /** What passing the check means: the history is within bound and no proposal is open. */
  lemma AvailableMeansNoneOpen(names: Names, w: World)
    requires History(names, w.history)
    ensures Available(names, w) <==>
              |w.history| <= HISTORY_BOUND && forall name | name in w.refs :: !Open(names, w, name)
  {
    hide History, DecidedIn, DecidedWalk;
    DecidedWalkIsExact(names, w.history);
  }

  datatype Action =
    | Look
    | LookAgain
    | Register(proposal: string)
    | PublishProposal
    | PrepareDecision(refName: string, candidate: string)
    | PublishDecision
    | Stop

  datatype Event = Event(worker: nat, action: Action)

  function Step(names: Names, w: World, t: nat, a: Action): World
    requires w.history != []
  {
    if a.Stop? then With(w, t, Ready)
    else
      match (At(w, t), a)
      case (Ready, Look) => if Available(names, w) then With(w, t, Looked(Current(w))) else w
      case (Looked(base), LookAgain) =>
        if Current(w) == base && Available(names, w) then With(w, t, Based(base)) else With(w, t, Ready)
      case (Based(base), Register(proposal)) =>
        // The proposal commit was just written with the base as its parent; its Ref's present head is sealed.
        if names.node(proposal) == Proposal(base)
        then With(w, t, Registered(base, proposal, Lookup(w.refs, names.attempt(base)))) else w
      case (Registered(base, proposal, sealedHead), PublishProposal) =>
        // One transaction: the base is still the Decision head, and the target is as sealed. A publisher
        // whose receipt shows an old head is told of an integrity error although the Ref has moved.
        if Current(w) == base && Lookup(w.refs, names.attempt(base)) == sealedHead
        then With(w.(refs := w.refs[names.attempt(base) := proposal]), t,
                  if sealedHead.None? then Admitted(proposal) else Faulted(proposal))
        else With(w, t, Ready)
      case (Ready, PrepareDecision(refName, candidate)) =>
        if refName in w.refs && names.node(candidate) == Decision(Current(w), w.refs[refName])
        then With(w, t, Deciding(Current(w), refName, w.refs[refName], candidate)) else w
      case (Deciding(base, refName, proposal, candidate), PublishDecision) =>
        // One transaction: both Refs are as bound, and Core has checked the proposal's single parent.
        if Current(w) == base && Lookup(w.refs, refName) == Some(proposal)
           && names.node(proposal) == Proposal(base) && names.node(candidate) == Decision(base, proposal)
        then With(w.(history := w.history + [candidate]), t, Ready) else With(w, t, Ready)
      case _ => w
  }

  // ----- What every step keeps -----

  predicate RefOk(names: Names, w: World, name: string)
    requires name in w.refs && w.history != []
  {
    var head := w.refs[name];
    && names.node(head).Proposal? && name == names.attempt(names.node(head).parent)
    && (head in DecidedIn(names, w.history) || names.node(head).parent == Current(w))
  }

  /** A Decision of the history decides a proposal made on the head before it. */
  predicate DecidesChild(names: Names, h: seq<string>, i: nat)
    requires 0 < i < |h|
  {
    names.node(h[i]).Decision? && names.node(names.node(h[i]).decided) == Proposal(h[i - 1])
  }

  predicate WorkerOk(names: Names, s: Worker) {
    s.Registered? ==> names.node(s.proposal) == Proposal(s.base)
  }

  predicate Ok(names: Names, w: World) {
    && History(names, w.history)
    && (forall i | 0 < i < |w.history| :: DecidesChild(names, w.history, i))
    && (forall name | name in w.refs :: RefOk(names, w, name))
    && (forall t | t in w.workers :: WorkerOk(names, w.workers[t]))
  }

  lemma HistoryGrows(names: Names, h: seq<string>, candidate: string)
    requires History(names, h) && names.node(candidate).Decision? && names.node(candidate).parent == h[|h| - 1]
    ensures History(names, h + [candidate])
  {
    var n := h + [candidate];
    forall i | 0 < i < |n| ensures IsStep(names, n, i) {
      if i < |h| { assert IsStep(names, h, i); }
    }
  }

  /** Deciding the one open proposal leaves none open. */
  lemma DecisionKeeps(names: Names, w: World, refName: string, candidate: string)
    requires Ok(names, w) && refName in w.refs
    requires names.node(w.refs[refName]) == Proposal(Current(w))
             && names.node(candidate) == Decision(Current(w), w.refs[refName])
    ensures Ok(names, w.(history := w.history + [candidate]))
  {
    hide History, DecidedIn;
    var n := w.(history := w.history + [candidate]);
    HistoryGrows(names, w.history, candidate);
    DecidedSnoc(names, w.history, candidate);
    forall i | 0 < i < |n.history| ensures DecidesChild(names, n.history, i) {
      if i < |w.history| { assert DecidesChild(names, w.history, i); }
    }
    assert RefOk(names, w, refName);
    forall name | name in n.refs ensures RefOk(names, n, name) {
      assert RefOk(names, w, name);
    }
  }

  lemma StepKeeps(names: Names, w: World, t: nat, a: Action)
    requires Ok(names, w)
    ensures Ok(names, Step(names, w, t, a))
  {
    hide IsStep, DecidedIn, Available, DecidesChild;
    var s := At(w, t);
    if s.Deciding? && a.PublishDecision? && Current(w) == s.base && Lookup(w.refs, s.refName) == Some(s.proposal)
       && names.node(s.proposal) == Proposal(s.base) && names.node(s.candidate) == Decision(s.base, s.proposal) {
      DecisionKeeps(names, w, s.refName, s.candidate);
    }
    var n := Step(names, w, t, a);
    forall name | name in n.refs && n.history == w.history ensures RefOk(names, n, name) {
      if name in w.refs { assert RefOk(names, w, name); }
    }
  }

  function Run(names: Names, root: string, events: seq<Event>): (w: World)
    ensures w.history != []
  {
    if events == [] then World([root], map[], map[])
    else
      var last := events[|events| - 1];
      var before := Run(names, root, events[..|events| - 1]);
      KeepsHistory(names, before, last.worker, last.action);
      Step(names, before, last.worker, last.action)
  }

  lemma KeepsHistory(names: Names, w: World, t: nat, a: Action)
    requires w.history != []
    ensures w.history <= Step(names, w, t, a).history
  {
    hide Available;
  }

  lemma {:induction false} RunKeeps(names: Names, root: string, events: seq<Event>)
    requires names.node(root).Root?
    ensures Ok(names, Run(names, root, events))
  {
    hide Step;
    if events != [] {
      var last := events[|events| - 1];
      RunKeeps(names, root, events[..|events| - 1]);
      StepKeeps(names, Run(names, root, events[..|events| - 1]), last.worker, last.action);
    }
  }

  /**
   * However many preparers and deciders run and however they interleave: at most one Proposal Ref
   * is open, and it is the one named after the current Decision head. Attempt ids may even collide.
   */
  lemma AtMostOneOpenProposal(names: Names, root: string, events: seq<Event>, a: string, b: string)
    requires names.node(root).Root?
    requires Open(names, Run(names, root, events), a) && Open(names, Run(names, root, events), b)
    ensures a == b == names.attempt(Current(Run(names, root, events)))
    ensures names.node(Run(names, root, events).refs[a]) == Proposal(Current(Run(names, root, events)))
  {
    hide Run, DecidedIn, History;
    RunKeeps(names, root, events);
    var w := Run(names, root, events);
    assert RefOk(names, w, a) && RefOk(names, w, b);
  }

  // ----- A published proposal can be displaced -----

  /** The worker's publication would go through. */
  predicate Publishes(names: Names, w: World, t: nat)
    requires w.history != []
  {
    At(w, t).Registered? && Current(w) == At(w, t).base
    && Lookup(w.refs, names.attempt(At(w, t).base)) == At(w, t).sealedHead
  }

  /** The heads of a history have attempt ids of their own. */
  predicate DistinctAttempts(names: Names, h: seq<string>) {
    forall i, j | 0 <= i < j < |h| :: names.attempt(h[i]) != names.attempt(h[j])
  }

  /** The Ref of the current head cannot hold a proposal that was already decided. */
  lemma CurrentRefIsOpen(names: Names, w: World)
    requires Ok(names, w) && DistinctAttempts(names, w.history)
    ensures names.attempt(Current(w)) in w.refs ==> Open(names, w, names.attempt(Current(w)))
  {
    assert w.history != [];
    hide History;
    var name, k := names.attempt(Current(w)), |w.history| - 1;
    if name in w.refs {
      assert RefOk(names, w, name);
      forall i | 0 <= i < |w.history| && names.node(w.history[i]).Decision?
        ensures names.node(w.history[i]).decided != w.refs[name]
      {
        NodeOnHistory(names, w.history, i);
        assert DecidesChild(names, w.history, i);
        assert names.attempt(w.history[i - 1]) != names.attempt(w.history[k]);
      }
    }
  }

  /**
   * In every run, a publication that goes through finds its target Ref open if and only if the head
   * sealed at registration is present; and exactly then its publisher is told of an integrity error,
   * although the open proposal has been replaced.
   */
  lemma PublicationMeetsOpenProposalExactly(names: Names, root: string, events: seq<Event>, t: nat)
    requires names.node(root).Root? && DistinctAttempts(names, Run(names, root, events).history)
    requires Publishes(names, Run(names, root, events), t)
    ensures var w := Run(names, root, events);
            var (s, n) := (At(w, t), Step(names, w, t, PublishProposal));
            var name := names.attempt(s.base);
            && (Open(names, w, name) <==> s.sealedHead.Some?) && (At(n, t).Faulted? <==> Open(names, w, name))
            && n.refs == w.refs[name := s.proposal] && n.history == w.history && Open(names, n, name)
  {
    hide Run, DecidedIn, History, DistinctAttempts, DecidesChild;
    RunKeeps(names, root, events);
    var w := Run(names, root, events);
    CurrentRefIsOpen(names, w);
    var n := Step(names, w, t, PublishProposal);
    StepKeeps(names, w, t, PublishProposal);
    CurrentRefIsOpen(names, n);
  }

  /**
   * Two preparers that both looked before either published: the later to register overwrites the
   * other's open proposal, and is then told of an error.
   */
  lemma OpenProposalCanBeDisplaced(names: Names, root: string, p: string, q: string)
    requires names.node(root).Root? && names.node(p) == Proposal(root) && names.node(q) == Proposal(root) && p != q
    ensures var events := [Event(0, Look), Event(1, Look), Event(0, LookAgain), Event(1, LookAgain),
                           Event(0, Register(p)), Event(0, PublishProposal), Event(1, Register(q))];
            var before, after := Run(names, root, events), Run(names, root, events + [Event(1, PublishProposal)]);
            && before.refs == map[names.attempt(root) := p] && Open(names, before, names.attempt(root))
            && after.refs == map[names.attempt(root) := q] && At(after, 1) == Faulted(q)
  {
    hide Run, Step;
    var name := names.attempt(root);
    var es := [Event(0, Look), Event(1, Look), Event(0, LookAgain), Event(1, LookAgain),
               Event(0, Register(p)), Event(0, PublishProposal), Event(1, Register(q)), Event(1, PublishProposal)];
    Displacement(names, root, p, q);
    RunStarts(names, root, es);
    RunNext(names, root, es, 0);
    RunNext(names, root, es, 1);
    RunNext(names, root, es, 2);
    RunNext(names, root, es, 3);
    RunNext(names, root, es, 4);
    RunNext(names, root, es, 5);
    RunNext(names, root, es, 6);
    RunNext(names, root, es, 7);
    var first := [Event(0, Look), Event(1, Look), Event(0, LookAgain), Event(1, LookAgain),
                  Event(0, Register(p)), Event(0, PublishProposal), Event(1, Register(q))];
    assert es[..7] == first && es[..8] == first + [Event(1, PublishProposal)];
  }

  lemma RunNext(names: Names, root: string, es: seq<Event>, k: nat)
    requires k < |es|
    ensures Run(names, root, es[..k + 1]) == Step(names, Run(names, root, es[..k]), es[k].worker, es[k].action)
  {
    hide Step;
    assert es[..k + 1][..k] == es[..k];
  }

  lemma RunStarts(names: Names, root: string, es: seq<Event>)
    ensures Run(names, root, es[..0]) == World([root], map[], map[])
  {
  }

  lemma Displacement(names: Names, root: string, p: string, q: string)
    requires names.node(root).Root? && names.node(p) == Proposal(root) && names.node(q) == Proposal(root) && p != q
    ensures var w0 := World([root], map[], map[]);
            var w4 :=
              Step(names, Step(names, Step(names, Step(names, w0, 0, Look), 1, Look), 0, LookAgain), 1, LookAgain);
            var w6 := Step(names, Step(names, w4, 0, Register(p)), 0, PublishProposal);
            var w7 := Step(names, w6, 1, Register(q));
            && w7.refs == map[names.attempt(root) := p] && Open(names, w7, names.attempt(root))
            && Step(names, w7, 1, PublishProposal).refs == map[names.attempt(root) := q]
            && At(Step(names, w7, 1, PublishProposal), 1) == Faulted(q)
  {
    hide DecidedIn, DecidedWalk;
    var name := names.attempt(root);
    NothingDecided(names, root);
    var w0 := World([root], map[], map[]);
    var w2 := Step(names, Step(names, w0, 0, Look), 1, Look);
    assert At(w2, 0) == Looked(root) && At(w2, 1) == Looked(root) && w2.refs == map[] && w2.history == [root];
    var w4 := Step(names, Step(names, w2, 0, LookAgain), 1, LookAgain);
    assert At(w4, 0) == Based(root) && At(w4, 1) == Based(root) && w4.refs == map[] && w4.history == [root];
    var w5 := Step(names, w4, 0, Register(p));
    assert At(w5, 0) == Registered(root, p, None) && At(w5, 1) == Based(root);
    var w6 := Step(names, w5, 0, PublishProposal);
    assert w6.refs == map[name := p] && At(w6, 1) == Based(root);
    var w7 := Step(names, w6, 1, Register(q));
    assert At(w7, 1) == Registered(root, q, Some(p));
  }

  lemma NothingDecided(names: Names, root: string)
    requires names.node(root).Root?
    ensures DecidedIn(names, [root]) == {} && DecidedWalk(names, root, {}, HISTORY_BOUND) == Some({})
  {
  }

  // ----- The one publication attempt of a pending proposal -----

  datatype PendingState = ReadyState | DecidingState | ConsumedState | UnknownState

  class PendingArtifactProposal {
    var state: PendingState
    const binding: string
    ghost var attempts: nat

    /** No attempt before the state leaves Deciding, and never a second one. */
    ghost predicate Valid()
      reads this
    {
      attempts <= 1 && (state.ReadyState? || state.DecidingState? ==> attempts == 0)
    }

    constructor (binding: string)
      ensures Valid() && state.ReadyState? && attempts == 0 && this.binding == binding
    {
      this.binding, state, attempts := binding, ReadyState, 0;
    }

    /**
     * Claims the approval and starts deciding. An authenticated actor with access spends the approval
     * even if a later check fails; deciding starts only from the Ready state, for this binding, with an
     * approval that is accepted, and if the preparation after the claim succeeds.
     */
    method PrepareDecision(approvals: Approval.ArtifactApprovalRegistry, login: Option<Approval.Session>, serial: nat,
                           intent: string, now: int, prepared: bool)
      returns (ok: bool)
      requires Valid()
      modifies this, approvals
      ensures Valid() && attempts == old(attempts)
      ensures var before := old(approvals.View());
              var claims := login.Some? && Approval.Claims(before, login.value, serial);
              && approvals.View() == (if claims then before.(approvals := before.approvals - {serial}) else before)
              && ok == (claims && old(state).ReadyState? && prepared
                        && Approval.Accepts(before, before.approvals[serial], login.value, binding, intent, now))
      ensures state == if ok then DecidingState else old(state)
    {
      if login.None? {
        return false;
      }
      var record := approvals.TakeApproval(login.value, serial);
      if record.None? {
        return false;
      }
      var accepted := Approval.Accepts(approvals.View(), record.value, login.value, binding, intent, now);
      if !state.ReadyState? || !accepted || !prepared {
        return false;
      }
      state := DecidingState;
      return true;
    }

    /** Publishing outside Deciding, or for another binding, attempts nothing and gives the proposal up. */
    method PublishDecision(binding: string, published: bool, matches: bool) returns (ok: bool)
      requires Valid()
      modifies this
      ensures Valid()
      ensures attempts == old(attempts) + (if old(state).DecidingState? && binding == this.binding then 1 else 0)
      ensures ok == (old(state).DecidingState? && binding == this.binding && published && matches)
      ensures state == if ok then ConsumedState else UnknownState
    {
      if !state.DecidingState? || this.binding != binding {
        state := UnknownState;
        return false;
      }
      attempts := attempts + 1;
      if !published || !matches {
        state := UnknownState;
        return false;
      }
      state := ConsumedState;
      return true;
    }
  }
}
