/** What an attempt and a reconciliation achieve when nothing comes between their steps, from every reachable world. */
module RecoveryCommits {
  import opened Optional
  import opened Reflog
  import opened Journal
  import opened Recovery

  function By(p: nat, actions: seq<Action>): seq<Event> {
    seq(|actions|, i requires 0 <= i < |actions| => Event(p, actions[i]))
  }

  lemma RunOne(log: seq<Entry>, expected: string, events: seq<Event>, p: nat, a: Action)
    ensures Run(log, expected, events + By(p, [a])) == Step(Run(log, expected, events), p, a)
  {
    hide Step;
    var all := events + By(p, [a]);
    assert all[..|all| - 1] == events && all[|all| - 1] == Event(p, a);
  }

  /** Several steps of one process are its first step and then the others. */
  lemma RunNext(log: seq<Entry>, expected: string, events: seq<Event>, p: nat, actions: seq<Action>)
    requires actions != []
    ensures events + By(p, actions) == events + By(p, [actions[0]]) + By(p, actions[1..])
  {
  }

  /**
   * In every run the checkout settles what was published: at the candidate's head an undecided row
   * becomes committed with that very command, and once the head has moved on the row is left alone.
   */
  lemma CheckoutDecides(log: seq<Entry>, expected: string, events: seq<Event>, p: nat)
    requires Chained(log) && WasHead(log, expected) && At(Run(log, expected, events), p).Published?
    ensures var w, n := Run(log, expected, events), Run(log, expected, events + By(p, [Checkout]));
            var i := At(w, p).intent;
            && n.log == w.log && At(n, p).Ready?
            && n.row == if HeadOf(w.log) == Some(i.candidate) && Undecided(w.row.state)
                        then Row(DecisionCommitted, expected, Some(i), Some(i)) else w.row
  {
    hide Run, Chained, WasStale, WasUntouched;
    RunOne(log, expected, events, p, Checkout);
    RunKeeps(log, expected, events);
    RowKeepsBinding(log, expected, events);
  }

  /** The row is open to this command: nothing else was registered, and the command is legal for it. */
  predicate OpenTo(row: Row, i: Intent) {
    && Decisionable(row.state)
    && (row.intent.None? || row.intent.value == i)
    && i.expected == row.expected && i.candidate != row.expected
  }

  lemma AttemptSteps(w: World, p: nat, i: Intent)
    requires Ok(w) && At(w, p).Ready? && OpenTo(w.row, i)
    ensures var a := Step(w, p, Register(i));
            var b := Step(a, p, Mark);
            && At(a, p) == Prepared(i) && a.log == w.log && a.row == w.row.(intent := Some(i))
            && At(b, p) == Marked(i) && b.log == w.log && b.row == w.row.(intent := Some(i), state := OutcomeUnknown)
  {
    hide Chained, WasStale, WasUntouched, ProcessOk;
  }

  lemma PublishSteps(w: World, p: nat, i: Intent)
    requires At(w, p) == Marked(i) && HeadOf(w.log) == Some(i.expected)
    requires w.row.state.OutcomeUnknown? && w.row.intent == Some(i) && w.row.outcome.None?
    ensures var a := Step(w, p, Swap);
            var b := Step(a, p, Checkout);
            && At(a, p) == Published(i) && a.log == w.log + [Entry(Some(i.expected), i.candidate)] && a.row == w.row
            && At(b, p) == Ready && b.log == a.log
            && b.row == w.row.(state := DecisionCommitted, outcome := Some(i))
  {
  }

  /**
   * From every reachable world whose head is the expected one and whose row is open to the command,
   * an uninterrupted attempt ends committed, with its exact move last in the history.
   */
  lemma UninterruptedAttemptCommits(log: seq<Entry>, expected: string, events: seq<Event>, p: nat, i: Intent)
    requires Chained(log) && WasHead(log, expected)
    requires var w := Run(log, expected, events);
             At(w, p).Ready? && OpenTo(w.row, i) && HeadOf(w.log) == Some(expected)
    ensures var w := Run(log, expected, events);
            var n := Run(log, expected, events + By(p, [Register(i), Mark, Swap, Checkout]));
            && n.row == Row(DecisionCommitted, expected, Some(i), Some(i))
            && n.log == w.log + [Entry(Some(expected), i.candidate)]
            && At(n, p).Ready?
  {
    hide Run, Step, Chained, ProcessOk, WasStale, WasUntouched, By;
    var w := Run(log, expected, events);
    RunKeeps(log, expected, events);
    RowKeepsBinding(log, expected, events);
    AttemptSteps(w, p, i);
    PublishSteps(Step(Step(w, p, Register(i)), p, Mark), p, i);
    FourSteps(log, expected, events, p, [Register(i), Mark, Swap, Checkout]);
  }

  lemma FourSteps(log: seq<Entry>, expected: string, events: seq<Event>, p: nat, s: seq<Action>)
    requires |s| == 4
    ensures Run(log, expected, events + By(p, s))
         == Step(Step(Step(Step(Run(log, expected, events), p, s[0]), p, s[1]), p, s[2]), p, s[3])
  {
    hide Run, Step;
    RunNext(log, expected, events, p, s);
    RunOne(log, expected, events, p, s[0]);
    ThreeSteps(log, expected, events + By(p, [s[0]]), p, s[1..]);
  }

  lemma ThreeSteps(log: seq<Entry>, expected: string, events: seq<Event>, p: nat, s: seq<Action>)
    requires |s| == 3
    ensures Run(log, expected, events + By(p, s))
         == Step(Step(Step(Run(log, expected, events), p, s[0]), p, s[1]), p, s[2])
  {
    hide Run, Step;
    RunNext(log, expected, events, p, s);
    RunOne(log, expected, events, p, s[0]);
    var next := events + By(p, [s[0]]);
    RunNext(log, expected, next, p, s[1..]);
    RunOne(log, expected, next, p, s[1]);
    assert s[1..][1..] == [s[2]];
    RunOne(log, expected, next + By(p, [s[1]]), p, s[2]);
  }

  /** The first attempt at a review: from any history whose head is the expected one. */
  lemma FirstAttemptCommits(log: seq<Entry>, expected: string, p: nat, i: Intent)
    requires Chained(log) && HeadOf(log) == Some(expected) && i.expected == expected && i.candidate != expected
    ensures var n := Run(log, expected, By(p, [Register(i), Mark, Swap, Checkout]));
            && n.row == Row(DecisionCommitted, expected, Some(i), Some(i))
            && n.log == log + [Entry(Some(expected), i.candidate)]
  {
    hide Chained, By, Step;
    assert log[|log| - 1].to == expected;
    UninterruptedAttemptCommits(log, expected, [], p, i);
    assert [] + By(p, [Register(i), Mark, Swap, Checkout]) == By(p, [Register(i), Mark, Swap, Checkout]);
  }

  // ----- Reconciliation -----

  /** The state in which a reconciliation leaves a row, said of the history instead of its counts. */
  function Settled(log: seq<Entry>, seen: ReviewState, i: Intent): ReviewState {
    if WasHead(log, i.candidate) then DecisionCommitted
    else if HeadOf(log) != Some(i.expected) then TerminalDenial
    else if seen.OutcomeUnknown? then RetryableFailure
    else seen
  }

  lemma ReconcileSteps(w: World, p: nat, descends: bool)
    requires Ok(w) && At(w, p).Ready? && Undecided(w.row.state) && w.row.intent.Some?
    ensures var a := Step(w, p, Load);
            var b := Step(a, p, Inspect(descends));
            var n := Step(b, p, Apply);
            var i := w.row.intent.value;
            n.log == w.log && n.row == Updated(w, Reconciled(w.row, w.row.state, i,
                                                InspectDecision(w.log, i.expected, i.candidate, descends))).row
  {
    hide Ok, InspectDecision, Reconciled;
  }

  lemma VerdictSettles(w: World, descends: bool)
    requires Ok(w) && Undecided(w.row.state) && w.row.intent.Some?
    requires var i := w.row.intent.value;
             var e := InspectDecision(w.log, i.expected, i.candidate, descends);
             !e.Ambiguous? && (e.Committed? || e.CommittedSuperseded? ==> WasHead(w.log, i.candidate))
    ensures var i := w.row.intent.value;
            var e := InspectDecision(w.log, i.expected, i.candidate, descends);
            var state := Settled(w.log, w.row.state, i);
            Updated(w, Reconciled(w.row, w.row.state, i, e)).row ==
              w.row.(state := state, outcome := if state.DecisionCommitted? then Some(i) else None)
  {
    hide Chained, ProcessOk, WasStale, WasUntouched, InspectDecision, WasHead, HeadOf;
    var i := w.row.intent.value;
    EvidenceIsTrue(w.log, i.expected, i.candidate, descends);
  }

  lemma CommittedWasHead(log: seq<Entry>, i: Intent, descends: bool)
    requires var e := InspectDecision(log, i.expected, i.candidate, descends); e.Committed? || e.CommittedSuperseded?
    requires Chained(log)
    ensures WasHead(log, i.candidate)
  {
    hide Chained, InspectDecision;
    EvidenceIsTrue(log, i.expected, i.candidate, descends);
    var k :| 0 <= k < |log| && log[k] == Entry(Some(i.expected), i.candidate);
    assert log[k].to == i.candidate;
  }

  /**
   * From every reachable world with a registered, undecided command whose history is not ambiguous,
   * an uninterrupted reconciliation records exactly what happened: committed if the candidate was
   * ever a head, denied if the head has left the expected one, open to retry if an unknown outcome
   * did not happen, and otherwise nothing.
   */
  lemma UninterruptedReconcileSettles(log: seq<Entry>, expected: string, events: seq<Event>, p: nat, descends: bool)
    requires Chained(log) && WasHead(log, expected)
    requires var w := Run(log, expected, events);
             && At(w, p).Ready? && Undecided(w.row.state) && w.row.intent.Some?
             && !InspectDecision(w.log, expected, w.row.intent.value.candidate, descends).Ambiguous?
    ensures var w := Run(log, expected, events);
            var n := Run(log, expected, events + By(p, [Load, Inspect(descends), Apply]));
            var i := w.row.intent.value;
            var state := Settled(w.log, w.row.state, i);
            && n.log == w.log
            && n.row == Row(state, expected, Some(i), if state.DecisionCommitted? then Some(i) else None)
  {
    hide Run, Step, Chained, ProcessOk, WasStale, WasUntouched, By, InspectDecision, Reconciled, Settled, WasHead;
    var w := Run(log, expected, events);
    RunKeeps(log, expected, events);
    RowKeepsBinding(log, expected, events);
    var i := w.row.intent.value;
    var e := InspectDecision(w.log, i.expected, i.candidate, descends);
    if e.Committed? || e.CommittedSuperseded? { CommittedWasHead(w.log, i, descends); }
    VerdictSettles(w, descends);
    ReconcileSteps(w, p, descends);
    ThreeSteps(log, expected, events, p, [Load, Inspect(descends), Apply]);
  }
}
