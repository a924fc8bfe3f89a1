/** Sequential review over whole runs: nothing is decided twice, why a proposal is displaced, what goes through. */
module ReviewRuns {
  import opened Optional
  import opened Review

  // ----- Decisions -----

  /** In every run each Decision decides a proposal made on the head before it, and none is decided twice. */
  lemma NothingIsDecidedTwice(names: Names, root: string, events: seq<Event>, i: nat, j: nat)
    requires names.node(root).Root? && 0 < i < j < |Run(names, root, events).history|
    ensures var h := Run(names, root, events).history;
            && names.node(h[i]).Decision? && names.node(h[j]).Decision?
            && names.node(names.node(h[i]).decided) == Proposal(h[i - 1])
            && names.node(h[i]).decided != names.node(h[j]).decided
  {
    hide Run;
    RunKeeps(names, root, events);
    var h := Run(names, root, events).history;
    assert DecidesChild(names, h, i) && DecidesChild(names, h, j);
    HistoryNeverRepeats(names, h, i - 1, j - 1);
  }

  // ----- Why a proposal is displaced -----

  lemma RunSnoc(names: Names, root: string, events: seq<Event>, e: Event)
    ensures Run(names, root, events + [e]) == Step(names, Run(names, root, events), e.worker, e.action)
  {
    hide Step;
    assert (events + [e])[..|events|] == events;
  }

  /** The worker is past its checks, on this base. */
  predicate Past(w: World, t: nat, base: string) {
    At(w, t) == Based(base) || (At(w, t).Registered? && At(w, t).base == base)
  }

  /** At that event the worker saw the base as the head, with no proposal open, for the last time. */
  ghost predicate SawClear(names: Names, root: string, events: seq<Event>, i: nat, t: nat, base: string)
    requires i < |events|
  {
    var w := Run(names, root, events[..i]);
    events[i] == Event(t, LookAgain) && Current(w) == base && Available(names, w)
  }

  lemma PastStep(names: Names, w: World, t: nat, a: Action, u: nat, base: string)
    requires w.history != [] && Past(Step(names, w, t, a), u, base)
    ensures Past(w, u, base) || (t == u && a.LookAgain? && Current(w) == base && Available(names, w))
  {
    hide Available;
  }

  lemma {:induction false} PastHasLooked(names: Names, root: string, events: seq<Event>, t: nat, base: string)
    returns (i: nat)
    requires Past(Run(names, root, events), t, base)
    ensures i < |events| && SawClear(names, root, events, i, t, base)
  {
    hide Step, Available;
    var k := |events| - 1;
    var init, e := events[..k], events[k];
    PastStep(names, Run(names, root, init), e.worker, e.action, t, base);
    if Past(Run(names, root, init), t, base) {
      i := PastHasLooked(names, root, init, t, base);
      assert init[..i] == events[..i];
    } else {
      i := k;
    }
  }

  /** At that event a publication created the Ref. */
  ghost predicate Creates(names: Names, root: string, events: seq<Event>, j: nat, name: string)
    requires j < |events|
  {
    var w := Run(names, root, events[..j]);
    && events[j].action.PublishProposal? && Publishes(names, w, events[j].worker)
    && name == names.attempt(Current(w)) && name !in w.refs
  }

  lemma RefAppears(names: Names, w: World, t: nat, a: Action, name: string)
    requires w.history != [] && name !in w.refs && name in Step(names, w, t, a).refs
    ensures a.PublishProposal? && Publishes(names, w, t) && name == names.attempt(Current(w))
  {
    hide Available;
  }

  lemma {:induction false} RefWasCreated(names: Names, root: string, events: seq<Event>, i: nat, name: string)
    returns (j: nat)
    requires i <= |events| && name !in Run(names, root, events[..i]).refs && name in Run(names, root, events).refs
    ensures i <= j < |events| && Creates(names, root, events, j, name)
    decreases |events|
  {
    hide Step, Publishes;
    assert events[..|events|] == events;
    var k := |events| - 1;
    var init, e := events[..k], events[k];
    if name in Run(names, root, init).refs {
      assert init[..i] == events[..i];
      j := RefWasCreated(names, root, init, i, name);
      assert init[..j] == events[..j];
    } else {
      RefAppears(names, Run(names, root, init), e.worker, e.action, name);
      j := k;
    }
  }

  lemma NoRefWhenClear(names: Names, root: string, events: seq<Event>)
    requires names.node(root).Root? && Available(names, Run(names, root, events))
    requires DistinctAttempts(names, Run(names, root, events).history)
    ensures names.attempt(Current(Run(names, root, events))) !in Run(names, root, events).refs
  {
    hide Run, DecidedIn, History, DistinctAttempts, DecidesChild, Available;
    RunKeeps(names, root, events);
    var w := Run(names, root, events);
    AvailableMeansNoneOpen(names, w);
    CurrentRefIsOpen(names, w);
  }

  /**
   * In every run, a publication that displaces an open proposal comes from a worker that saw none
   * open: the displaced Ref was created by another publication after that worker's second look.
   */
  lemma DisplacedWasPublishedAfterTheLook(names: Names, root: string, events: seq<Event>, t: nat)
    returns (i: nat, j: nat)
    requires names.node(root).Root?
    requires forall k | 0 <= k <= |events| :: DistinctAttempts(names, Run(names, root, events[..k]).history)
    requires var w := Run(names, root, events);
             Publishes(names, w, t) && Open(names, w, names.attempt(Current(w)))
    ensures var w := Run(names, root, events);
            && i < j < |events|
            && SawClear(names, root, events, i, t, Current(w))
            && Creates(names, root, events, j, names.attempt(Current(w)))
  {
    hide Run, Available, DistinctAttempts, DecidedIn;
    var w := Run(names, root, events);
    var base, name := Current(w), names.attempt(Current(w));
    i := PastHasLooked(names, root, events, t, base);
    assert DistinctAttempts(names, Run(names, root, events[..i]).history);
    NoRefWhenClear(names, root, events[..i]);
    j := RefWasCreated(names, root, events, i, name);
  }

  // ----- What goes through -----

  function By(t: nat, actions: seq<Action>): seq<Event> {
    seq(|actions|, i requires 0 <= i < |actions| => Event(t, actions[i]))
  }

  lemma TwoSteps(names: Names, root: string, events: seq<Event>, t: nat, a: Action, b: Action)
    ensures Run(names, root, events + By(t, [a, b])) ==
              (KeepsHistory(names, Run(names, root, events), t, a);
               Step(names, Step(names, Run(names, root, events), t, a), t, b))
  {
    hide Step;
    KeepsHistory(names, Run(names, root, events), t, a);
    RunSnoc(names, root, events, Event(t, a));
    RunSnoc(names, root, events + [Event(t, a)], Event(t, b));
    assert events + By(t, [a, b]) == events + [Event(t, a)] + [Event(t, b)];
  }

  /** The history is within the walk's bound and no proposal is open. */
  predicate Clear(names: Names, w: World) {
    |w.history| <= HISTORY_BOUND && forall name | name in w.refs :: !Open(names, w, name)
  }

  lemma LooksSucceed(names: Names, w: World, t: nat)
    requires w.history != [] && At(w, t).Ready? && Available(names, w)
    ensures var a := Step(names, w, t, Look);
            a.history != [] && Step(names, a, t, LookAgain) == With(a, t, Based(Current(w)))
            && a == With(w, t, Looked(Current(w)))
  {
  }

  lemma PublicationSucceeds(names: Names, w: World, t: nat, proposal: string)
    requires w.history != [] && At(w, t) == Based(Current(w)) && names.node(proposal) == Proposal(Current(w))
    requires names.attempt(Current(w)) !in w.refs
    ensures var a := Step(names, w, t, Register(proposal));
            && a.history == w.history
            && var n := Step(names, a, t, PublishProposal);
               && n.history == w.history && n.refs == w.refs[names.attempt(Current(w)) := proposal]
               && At(n, t) == Admitted(proposal)
  {
    hide Available;
  }

  /**
   * From every reachable world with no proposal open and a history within bound, an undisturbed
   * preparer's proposal is admitted under the Ref of the current head.
   */
  lemma UndisturbedProposalIsAdmitted(names: Names, root: string, events: seq<Event>, t: nat, proposal: string)
    requires names.node(root).Root? && DistinctAttempts(names, Run(names, root, events).history)
    requires var w := Run(names, root, events);
             At(w, t).Ready? && Clear(names, w) && names.node(proposal) == Proposal(Current(w))
    ensures var w := Run(names, root, events);
            var n := Run(names, root, events + By(t, [Look, LookAgain]) + By(t, [Register(proposal), PublishProposal]));
            && n.history == w.history && n.refs == w.refs[names.attempt(Current(w)) := proposal]
            && At(n, t) == Admitted(proposal)
  {
    hide Run, By, Step, Available, DistinctAttempts, DecidedIn;
    var w := Run(names, root, events);
    RunKeeps(names, root, events);
    AvailableMeansNoneOpen(names, w);
    NoRefWhenClear(names, root, events);
    LooksSucceed(names, w, t);
    TwoSteps(names, root, events, t, Look, LookAgain);
    var b := Run(names, root, events + By(t, [Look, LookAgain]));
    PublicationSucceeds(names, b, t, proposal);
    TwoSteps(names, root, events + By(t, [Look, LookAgain]), t, Register(proposal), PublishProposal);
  }

  lemma DecisionSucceeds(names: Names, w: World, t: nat, refName: string, candidate: string)
    requires w.history != [] && At(w, t).Ready? && refName in w.refs
    requires names.node(w.refs[refName]) == Proposal(Current(w))
             && names.node(candidate) == Decision(Current(w), w.refs[refName])
    ensures var a := Step(names, w, t, PrepareDecision(refName, candidate));
            && a.history == w.history
            && var n := Step(names, a, t, PublishDecision); n.history == w.history + [candidate] && n.refs == w.refs
  {
    hide Available;
  }

  /**
   * From every reachable world with a proposal open, an undisturbed decider's Decision on it becomes
   * the head, and then no proposal is open.
   */
  lemma UndisturbedDecisionIsMade(names: Names, root: string, events: seq<Event>, t: nat, refName: string,
                                  candidate: string)
    requires names.node(root).Root?
    requires var w := Run(names, root, events);
             && At(w, t).Ready? && Open(names, w, refName)
             && names.node(candidate) == Decision(Current(w), w.refs[refName])
    ensures var w := Run(names, root, events);
            var n := Run(names, root, events + By(t, [PrepareDecision(refName, candidate), PublishDecision]));
            && n.history == w.history + [candidate] && n.refs == w.refs
            && forall name | name in n.refs :: !Open(names, n, name)
  {
    hide Run, By, Step, Available, DecidedIn;
    var w := Run(names, root, events);
    var actions := By(t, [PrepareDecision(refName, candidate), PublishDecision]);
    AtMostOneOpenProposal(names, root, events, refName, refName);
    DecisionSucceeds(names, w, t, refName, candidate);
    TwoSteps(names, root, events, t, PrepareDecision(refName, candidate), PublishDecision);
    DecidedSnoc(names, w.history, candidate);
    var n := Run(names, root, events + actions);
    forall name | name in n.refs ensures !Open(names, n, name) {
      if name in w.refs && Open(names, w, name) { AtMostOneOpenProposal(names, root, events, refName, name); }
    }
  }
}
