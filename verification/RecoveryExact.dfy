/**
 * When a verdict on a review can be overtaken: the exact condition, in every interleaving, and runs
 * that show it.
 */
module RecoveryExact {
  import opened Optional
  import opened Reflog
  import opened Journal
  import opened Recovery

  /** A process that may swap without looking at the journal again. */
  predicate SomeMarked(w: World) { exists p | p in w.processes :: w.processes[p].Marked? }

  /** No foreign move makes the candidate a head. */
  predicate Avoids(more: seq<Event>, candidate: string) {
    forall i | 0 <= i < |more| :: more[i].action != OtherMove(candidate)
  }

  /** The process takes no step. */
  predicate Idle(more: seq<Event>, p: nat) {
    forall i | 0 <= i < |more| :: more[i].action.OtherMove? || more[i].process != p
  }

  predicate NoVerdicts(more: seq<Event>) { forall i | 0 <= i < |more| :: !more[i].action.Apply? }

  lemma RunSnoc(log: seq<Entry>, expected: string, events: seq<Event>, more: seq<Event>, e: Event)
    ensures Run(log, expected, events + (more + [e])) == Step(Run(log, expected, events + more), e.process, e.action)
  {
    hide Step;
    var all := events + (more + [e]);
    assert all[..|all| - 1] == events + more;
  }

  // ----- A review that nobody can move any more -----

  /** The candidate was never a head, no process is about to make it one, and the row bars new attempts. */
  ghost predicate Frozen(w: World, candidate: string) {
    && Ok(w) && !SomeMarked(w) && !WasHead(w.log, candidate)
    && w.row.intent.Some? && w.row.intent.value.candidate == candidate
    && (w.row.state.TerminalDenial? || w.row.state.OutcomeUnknown?)
  }

  lemma FrozenStep(w: World, p: nat, a: Action, candidate: string)
    requires Frozen(w, candidate) && a != OtherMove(candidate) && (a.Apply? ==> w.row.state.TerminalDenial?)
    ensures Frozen(Step(w, p, a), candidate) && Step(w, p, a).row == w.row
  {
    hide Chained, WasStale, WasUntouched, InspectDecision;
    StepKeeps(w, p, a);
    NotPublished(w, p, candidate);
    var n := Step(w, p, a);
    if a.OtherMove? { NextHead(w.log, a.to, candidate); }
  }

  lemma NextHead(log: seq<Entry>, to: string, h: string)
    requires !WasHead(log, h) && to != h
    ensures !WasHead(log + [Entry(HeadOf(log), to)], h)
  {
  }

  lemma NotPublished(w: World, p: nat, candidate: string)
    requires Frozen(w, candidate)
    ensures !At(w, p).Published? && !At(w, p).Marked?
  {
    hide Chained, WasStale, WasUntouched;
  }

  lemma {:induction false} FrozenRun(log: seq<Entry>, expected: string, events: seq<Event>, more: seq<Event>,
                                     candidate: string)
    requires Frozen(Run(log, expected, events), candidate) && Avoids(more, candidate)
    requires NoVerdicts(more) || Run(log, expected, events).row.state.TerminalDenial?
    ensures Frozen(Run(log, expected, events + more), candidate)
    ensures Run(log, expected, events + more).row == Run(log, expected, events).row
    decreases |more|
  {
    hide Frozen, Run, Step;
    if more == [] {
      assert events + more == events;
    } else {
      var k := |more| - 1;
      var init, e := more[..k], more[k];
      FrozenRun(log, expected, events, init, candidate);
      assert more == init + [e];
      RunSnoc(log, expected, events, init, e);
      FrozenStep(Run(log, expected, events + init), e.process, e.action, candidate);
    }
  }

  /** If the processes do not hold a marked attempt, the review is frozen. */
  lemma UnmarkedIsFrozen(w: World)
    requires Ok(w) && !SomeMarked(w) && (w.row.state.TerminalDenial? || w.row.state.OutcomeUnknown?)
    requires w.row.intent.Some? ==> !WasHead(w.log, w.row.intent.value.candidate)
    ensures w.row.intent.Some? && Frozen(w, w.row.intent.value.candidate)
  {
    hide Chained, WasStale, WasUntouched, ProcessOk;
  }

  /** A marked process swaps as soon as the Ref is at the expected head. */
  lemma MarkedSwaps(w: World, q: nat)
    requires Ok(w) && At(w, q).Marked? && HeadOf(w.log) == Some(w.row.expected)
    ensures var n := Step(w, q, Swap);
            && w.row.intent.Some? && n.log == w.log + [Entry(Some(w.row.expected), w.row.intent.value.candidate)]
            && n.row == w.row && n.processes == w.processes[q := Published(w.row.intent.value)]
  {
    hide Chained, WasStale, WasUntouched;
  }

  // ----- Denied reviews -----

  /** In the continuation the candidate is a head, through no foreign move to it. */
  ghost predicate BecomesHead(log: seq<Entry>, expected: string, events: seq<Event>, more: seq<Event>,
                              candidate: string) {
    Avoids(more, candidate) && WasHead(Run(log, expected, events + more).log, candidate)
  }

  /**
   * A denied review's candidate is a head in some continuation, unless foreign moves take the Ref to
   * it, if and only if it already was one or some process is still marked.
   */
  lemma DeniedCandidateMovesExactly(log: seq<Entry>, expected: string, events: seq<Event>)
    requires Chained(log) && WasHead(log, expected) && Run(log, expected, events).row.state.TerminalDenial?
    ensures var w := Run(log, expected, events);
            && w.row.intent.Some?
            && var c := w.row.intent.value.candidate;
               (exists more :: BecomesHead(log, expected, events, more, c)) <==> WasHead(w.log, c) || SomeMarked(w)
  {
    hide Run, Chained, WasHead, Ok, Frozen, Avoids, SomeMarked;
    RunKeeps(log, expected, events);
    DenialAndRetryWereTrueOnce(log, expected, events);
    var w := Run(log, expected, events);
    var c := w.row.intent.value.candidate;
    if WasHead(w.log, c) {
      assert events + [] == events;
      NoMovesAvoid(c);
      assert BecomesHead(log, expected, events, [], c);
    } else if SomeMarked(w) {
      MarkedGoesThrough(log, expected, events);
    } else {
      UnmarkedIsFrozen(w);
      forall more ensures !BecomesHead(log, expected, events, more, c) {
        if Avoids(more, c) {
          FrozenRun(log, expected, events, more, c);
          FrozenIsNoHead(Run(log, expected, events + more), c);
        }
      }
    }
  }

  lemma NoMovesAvoid(c: string)
    ensures Avoids([], c)
  {
  }

  lemma FrozenIsNoHead(w: World, c: string)
    requires Frozen(w, c)
    ensures !WasHead(w.log, c)
  {
    hide Ok, WasHead, SomeMarked;
  }

  /** Once the old head is back, the marked process moves the Ref, whatever the row says. */
  lemma MarkedGoesThrough(log: seq<Entry>, expected: string, events: seq<Event>)
    requires Ok(Run(log, expected, events)) && SomeMarked(Run(log, expected, events))
    ensures Run(log, expected, events).row.intent.Some?
    ensures exists more ::
              BecomesHead(log, expected, events, more, Run(log, expected, events).row.intent.value.candidate)
  {
    hide Run, Chained, WasStale, WasUntouched, ProcessOk;
    var w := Run(log, expected, events);
    var q :| q in w.processes && w.processes[q].Marked?;
    MarkedIsRegistered(w, q);
    var c := w.row.intent.value.candidate;
    var back, swap := Event(0, OtherMove(w.row.expected)), Event(q, Swap);
    RunSnoc(log, expected, events, [], back);
    assert events + [] == events && [] + [back] == [back];
    RunSnoc(log, expected, events, [back], swap);
    var v := Run(log, expected, events + [back]);
    StepKeeps(w, 0, OtherMove(w.row.expected));
    MarkedSwaps(v, q);
    var n := Run(log, expected, events + ([back] + [swap]));
    assert n.log[|n.log| - 1].to == c;
    assert BecomesHead(log, expected, events, [back] + [swap], c);
  }

  lemma MarkedIsRegistered(w: World, q: nat)
    requires Ok(w) && At(w, q).Marked?
    ensures w.row.intent == Some(At(w, q).intent)
    ensures w.row.intent.value.expected == w.row.expected && w.row.intent.value.candidate != w.row.expected
  {
    hide Chained, WasStale, WasUntouched;
  }

  // ----- Reviews found uncommitted -----

  lemma IdleStep(w: World, q: nat, a: Action, p: nat)
    requires a.OtherMove? || q != p
    ensures At(Step(w, q, a), p) == At(w, p)
  {
    hide InspectDecision, Reconciled, Cas;
  }

  lemma {:induction false} IdleRun(log: seq<Entry>, expected: string, events: seq<Event>, more: seq<Event>, p: nat)
    requires Idle(more, p)
    ensures At(Run(log, expected, events + more), p) == At(Run(log, expected, events), p)
    decreases |more|
  {
    hide Run, Step, At;
    if more == [] {
      assert events + more == events;
    } else {
      var k := |more| - 1;
      var init, e := more[..k], more[k];
      IdleRun(log, expected, events, init, p);
      assert more == init + [e];
      RunSnoc(log, expected, events, init, e);
      IdleStep(Run(log, expected, events + init), e.process, e.action, p);
    }
  }

  /** Written after these steps, the verdict leaves the review open to retry although its candidate is a head. */
  ghost predicate ComesTooLate(log: seq<Entry>, expected: string, read: seq<Event>, more: seq<Event>, p: nat,
                               candidate: string) {
    && Idle(more, p) && Avoids(more, candidate)
    && var n := Step(Run(log, expected, read + more), p, Apply);
       n.row.state.RetryableFailure? && WasHead(n.log, candidate)
  }

  /** The same when nobody else writes a verdict in between. */
  ghost predicate RetriesTooLate(log: seq<Entry>, expected: string, read: seq<Event>, more: seq<Event>, p: nat,
                                 candidate: string) {
    NoVerdicts(more) && ComesTooLate(log, expected, read, more, p, candidate)
  }

  /**
   * A process that loaded an unknown outcome is about to read that the registered candidate was not
   * committed. Had it loaded any other state, that verdict would write nothing.
   */
  ghost predicate ReadsUncommitted(w: World, p: nat, descends: bool) {
    && At(w, p).Inspecting? && At(w, p).seen.OutcomeUnknown?
    && InspectDecision(w.log, At(w, p).intent.expected, At(w, p).intent.candidate, descends).NotCommitted?
  }

  /** Somebody can still move the Ref without a further verdict. */
  ghost predicate CanStillMove(w: World) {
    Decisionable(w.row.state) || (w.row.state.OutcomeUnknown? && SomeMarked(w))
  }

  /**
   * Evidence is read and written down in separate transactions. A not-committed verdict can be
   * written after the candidate became a head, with no other verdict in between, if and only if at
   * the reading the row was open to a new attempt, or its outcome was unknown and some process marked.
   */
  lemma RetriesTooLateExactly(log: seq<Entry>, expected: string, events: seq<Event>, p: nat, descends: bool)
    requires Chained(log) && WasHead(log, expected) && ReadsUncommitted(Run(log, expected, events), p, descends)
    ensures var w := Run(log, expected, events);
            var read := events + [Event(p, Inspect(descends))];
            (exists more :: RetriesTooLate(log, expected, read, more, p, At(w, p).intent.candidate)) <==>
              CanStillMove(w)
  {
    hide Run, Chained, WasHead, Ok, SomeMarked, InspectDecision, HeadOf, ComesTooLate, Step;
    var w := Run(log, expected, events);
    var i := At(w, p).intent;
    var read := events + [Event(p, Inspect(descends))];
    AfterReading(log, expected, events, p, descends);
    var v := Run(log, expected, read);
    if Decisionable(w.row.state) {
      FreshAttemptOvertakes(log, expected, read, p, p + 1, i);
    } else if CanStillMove(w) {
      MarkedBetween(log, expected, read, p, i);
    } else {
      forall more ensures !RetriesTooLate(log, expected, read, more, p, i.candidate) {
        if w.row.state.OutcomeUnknown? {
          FrozenIsNeverLate(log, expected, read, more, p, i.candidate);
        } else {
          SettledIsNeverLate(log, expected, read, more, p, i.candidate);
        }
      }
    }
  }

  /**
   * If other processes may write verdicts in between, the verdict can come too late if and only if
   * the review was not settled at the reading.
   */
  lemma VerdictComesTooLateExactly(log: seq<Entry>, expected: string, events: seq<Event>, p: nat, descends: bool)
    requires Chained(log) && WasHead(log, expected) && ReadsUncommitted(Run(log, expected, events), p, descends)
    ensures var w := Run(log, expected, events);
            var read := events + [Event(p, Inspect(descends))];
            (exists more :: ComesTooLate(log, expected, read, more, p, At(w, p).intent.candidate)) <==>
              Undecided(w.row.state)
  {
    hide Run, Chained, WasHead, Ok, SomeMarked, InspectDecision, HeadOf, ComesTooLate, Step;
    var w := Run(log, expected, events);
    var i := At(w, p).intent;
    var read := events + [Event(p, Inspect(descends))];
    AfterReading(log, expected, events, p, descends);
    if Decisionable(w.row.state) {
      FreshAttemptOvertakes(log, expected, read, p, p + 1, i);
    } else if w.row.state.OutcomeUnknown? {
      SecondReconcilerOvertakes(log, expected, read, p, p + 1, i);
    } else {
      forall more ensures !ComesTooLate(log, expected, read, more, p, i.candidate) {
        SettledIsNeverLate(log, expected, read, more, p, i.candidate);
      }
    }
  }

  /** The verdict of the process is known and not yet written, and was true when it was read. */
  ghost predicate Knows(v: World, p: nat, i: Intent) {
    && Ok(v) && v.row.intent == Some(i) && i.expected == v.row.expected && i.candidate != i.expected
    && At(v, p) == Judged(OutcomeUnknown, i, NotCommitted)
    && !WasHead(v.log, i.candidate) && HeadOf(v.log) == Some(i.expected)
  }

  lemma AfterReading(log: seq<Entry>, expected: string, events: seq<Event>, p: nat, descends: bool)
    requires Chained(log) && WasHead(log, expected) && ReadsUncommitted(Run(log, expected, events), p, descends)
    ensures var w := Run(log, expected, events);
            var v := Run(log, expected, events + [Event(p, Inspect(descends))]);
            Knows(v, p, At(w, p).intent) && v.row == w.row && (SomeMarked(v) <==> SomeMarked(w))
  {
    hide Run, Chained, WasHead, Ok, SomeMarked, InspectDecision, HeadOf, Step, ReadsUncommitted, Knows;
    RunKeeps(log, expected, events);
    assert events + [] == events && [] + [Event(p, Inspect(descends))] == [Event(p, Inspect(descends))];
    RunSnoc(log, expected, events, [], Event(p, Inspect(descends)));
    ReadWorld(Run(log, expected, events), p, descends);
  }

  // ----- Reviews nobody moves -----

  lemma FrozenIsNeverLate(log: seq<Entry>, expected: string, read: seq<Event>, more: seq<Event>, p: nat, c: string)
    requires var v := Run(log, expected, read);
             Ok(v) && !SomeMarked(v) && v.row.state.OutcomeUnknown?
             && v.row.intent.Some? && v.row.intent.value.candidate == c && !WasHead(v.log, c)
    ensures !RetriesTooLate(log, expected, read, more, p, c)
  {
    hide Run, Ok, Frozen, Avoids, Idle, NoVerdicts, SomeMarked, WasHead;
    UnmarkedIsFrozen(Run(log, expected, read));
    if NoVerdicts(more) && Avoids(more, c) {
      FrozenRun(log, expected, read, more, c);
      FrozenIsNoHead(Run(log, expected, read + more), c);
      VerdictKeepsLog(Run(log, expected, read + more), p);
    }
  }

  predicate IsSettled(s: ReviewState) { s.DecisionCommitted? || s.TerminalDenial? }

  lemma SettledStep(w: World, p: nat, a: Action)
    requires IsSettled(w.row.state)
    ensures Step(w, p, a).row.state == w.row.state
  {
    hide InspectDecision, Cas;
  }

  lemma {:induction false} SettledRun(log: seq<Entry>, expected: string, events: seq<Event>, more: seq<Event>)
    requires IsSettled(Run(log, expected, events).row.state)
    ensures Run(log, expected, events + more).row.state == Run(log, expected, events).row.state
    decreases |more|
  {
    hide Run, Step;
    if more == [] {
      assert events + more == events;
    } else {
      var k := |more| - 1;
      var init, e := more[..k], more[k];
      SettledRun(log, expected, events, init);
      assert more == init + [e];
      RunSnoc(log, expected, events, init, e);
      SettledStep(Run(log, expected, events + init), e.process, e.action);
    }
  }

  /** A settled row never opens again. */
  lemma SettledIsNeverLate(log: seq<Entry>, expected: string, read: seq<Event>, more: seq<Event>, p: nat, c: string)
    requires IsSettled(Run(log, expected, read).row.state)
    ensures !ComesTooLate(log, expected, read, more, p, c)
  {
    hide Run, Step, Avoids, Idle, WasHead;
    SettledRun(log, expected, read, more);
    SettledStep(Run(log, expected, read + more), p, Apply);
  }

  lemma VerdictKeepsLog(w: World, p: nat)
    ensures Step(w, p, Apply).log == w.log
  {
    hide Reconciled;
  }

  /** The world in which the verdict is known but not yet written. */
  lemma ReadWorld(w: World, p: nat, descends: bool)
    requires Ok(w) && ReadsUncommitted(w, p, descends)
    ensures var v := Step(w, p, Inspect(descends));
            Knows(v, p, At(w, p).intent) && v.row == w.row && (SomeMarked(v) <==> SomeMarked(w))
  {
    hide Chained, WasStale, WasUntouched, InspectDecision;
    var i := At(w, p).intent;
    EvidenceIsTrue(w.log, i.expected, i.candidate, descends);
    StepKeeps(w, p, Inspect(descends));
    var v := Step(w, p, Inspect(descends));
    assert forall q | q in w.processes && q != p :: v.processes[q] == w.processes[q];
  }

  lemma MarkedBetween(log: seq<Entry>, expected: string, read: seq<Event>, p: nat, i: Intent)
    requires var v := Run(log, expected, read); Knows(v, p, i) && v.row.state.OutcomeUnknown? && SomeMarked(v)
    ensures exists more :: RetriesTooLate(log, expected, read, more, p, i.candidate)
  {
    hide Run, Chained, WasStale, WasUntouched;
    var v := Run(log, expected, read);
    var q :| q in v.processes && v.processes[q].Marked?;
    var swap := Event(q, Swap);
    assert read + [] == read && [] + [swap] == [swap];
    RunSnoc(log, expected, read, [], swap);
    MarkedSwaps(v, q);
    var n := Run(log, expected, read + [swap]);
    assert At(n, p) == At(v, p);
    assert n.log[|n.log| - 1].to == i.candidate;
    assert RetriesTooLate(log, expected, read, [swap], p, i.candidate);
  }

  // ----- Attempts made in between -----

  /** A process starts afresh, registers the same command again and swaps. */
  function FreshAttempt(q: nat, i: Intent): seq<Event> {
    [Event(q, Crash), Event(q, Register(i)), Event(q, Mark), Event(q, Swap)]
  }

  /** Or it reconciles first. */
  function SecondAttempt(q: nat, i: Intent): seq<Event> {
    [Event(q, Crash), Event(q, Load), Event(q, Inspect(false)), Event(q, Apply), Event(q, Register(i)), Event(q, Mark),
     Event(q, Swap)]
  }

  /** If the row is open to a new attempt, one is enough; nobody need be marked. */
  lemma FreshAttemptOvertakes(log: seq<Entry>, expected: string, read: seq<Event>, p: nat, q: nat, i: Intent)
    requires var v := Run(log, expected, read); Knows(v, p, i) && Decisionable(v.row.state)
    requires q != p
    ensures RetriesTooLate(log, expected, read, FreshAttempt(q, i), p, i.candidate)
  {
    hide Run, Ok, Step, WasHead, HeadOf;
    var v, es := Run(log, expected, read), FreshAttempt(q, i);
    assert es[..0] == [] && read + [] == read && es[..4] == es;
    RunOneMore(log, expected, read, es, 0);
    RunOneMore(log, expected, read, es, 1);
    RunOneMore(log, expected, read, es, 2);
    RunOneMore(log, expected, read, es, 3);
    Crashed(v, p, q);
    SecondSwaps(Step(v, q, Crash), p, q, i);
  }

  lemma Crashed(v: World, p: nat, q: nat)
    requires q != p
    ensures var n := Step(v, q, Crash); n.log == v.log && n.row == v.row && At(n, q).Ready? && At(n, p) == At(v, p)
    ensures Ok(v) && Undecided(v.row.state) ==> v.row.outcome.None?
  {
    hide Chained, WasStale, WasUntouched, ProcessOk;
  }

  /** If the outcome is unknown, a second reconciler can open the row and then try again. */
  lemma SecondReconcilerOvertakes(log: seq<Entry>, expected: string, read: seq<Event>, p: nat, q: nat, i: Intent)
    requires var v := Run(log, expected, read); Knows(v, p, i) && v.row.state.OutcomeUnknown?
    requires q != p
    ensures ComesTooLate(log, expected, read, SecondAttempt(q, i), p, i.candidate)
  {
    hide Run, Ok, Step, WasHead, HeadOf;
    var v, es := Run(log, expected, read), SecondAttempt(q, i);
    assert es[..0] == [] && read + [] == read && es[..7] == es;
    RunOneMore(log, expected, read, es, 0);
    RunOneMore(log, expected, read, es, 1);
    RunOneMore(log, expected, read, es, 2);
    RunOneMore(log, expected, read, es, 3);
    RunOneMore(log, expected, read, es, 4);
    RunOneMore(log, expected, read, es, 5);
    RunOneMore(log, expected, read, es, 6);
    SecondReconciles(v, p, q, i);
    SecondSwaps(Step(Step(Step(Step(v, q, Crash), q, Load), q, Inspect(false)), q, Apply), p, q, i);
  }

  lemma RunOneMore(log: seq<Entry>, expected: string, events: seq<Event>, es: seq<Event>, k: nat)
    requires k < |es|
    ensures Run(log, expected, events + es[..k + 1]) ==
              Step(Run(log, expected, events + es[..k]), es[k].process, es[k].action)
  {
    hide Run, Step;
    assert es[..k + 1] == es[..k] + [es[k]];
    RunSnoc(log, expected, events, es[..k], es[k]);
  }

  lemma SecondReconciles(v: World, p: nat, q: nat, i: Intent)
    requires Ok(v) && q != p && v.row.state.OutcomeUnknown? && v.row.intent == Some(i)
    requires !WasHead(v.log, i.candidate) && HeadOf(v.log) == Some(i.expected)
    ensures var n := Step(Step(Step(Step(v, q, Crash), q, Load), q, Inspect(false)), q, Apply);
            && n.log == v.log && n.row == v.row.(state := RetryableFailure) && At(n, q).Ready? && At(n, p) == At(v, p)
            && v.row.outcome.None? && i.expected == v.row.expected && i.candidate != i.expected
  {
    hide Chained, WasStale, WasUntouched, ProcessOk, InspectDecision;
    EvidenceIsTrue(v.log, i.expected, i.candidate, false);
    var a := Step(v, q, Crash);
    var b := Step(a, q, Load);
    assert At(b, q) == Inspecting(OutcomeUnknown, i) && b.row == v.row && b.log == v.log;
    var d := Step(b, q, Inspect(false));
    assert At(d, q) == Judged(OutcomeUnknown, i, NotCommitted);
  }

  lemma SecondSwaps(v: World, p: nat, q: nat, i: Intent)
    requires q != p && Decisionable(v.row.state) && v.row.intent == Some(i) && v.row.outcome.None? && At(v, q).Ready?
    requires i.expected == v.row.expected && i.candidate != i.expected && HeadOf(v.log) == Some(i.expected)
    requires At(v, p) == Judged(OutcomeUnknown, i, NotCommitted)
    ensures var n := Step(Step(Step(Step(v, q, Register(i)), q, Mark), q, Swap), p, Apply);
            n.row.state.RetryableFailure? && WasHead(n.log, i.candidate)
  {
    var a := Step(v, q, Register(i));
    assert At(a, q) == Prepared(i) && a.row == v.row && a.log == v.log;
    var b := Step(a, q, Mark);
    assert At(b, q) == Marked(i) && b.row == v.row.(state := OutcomeUnknown) && b.log == v.log;
    var d := Step(b, q, Swap);
    assert d.row == b.row && d.log == v.log + [Entry(Some(i.expected), i.candidate)] && At(d, p) == At(v, p);
    assert d.log[|v.log|].to == i.candidate;
  }

  // ----- What a verdict does -----

  /**
   * In any interleaving between reading the evidence and writing it: if the row is still as it was
   * read, it is settled by what the history said when the evidence was read, where heads only
   * extend their parents.
   */
  lemma ReconciliationSettles(log: seq<Entry>, expected: string, events: seq<Event>, more: seq<Event>, p: nat,
                              parent: string -> Option<string>)
    requires Chained(log) && WasHead(log, expected) && Idle(more, p)
    requires var w := Run(log, expected, events);
             At(w, p).Inspecting? && Undecided(At(w, p).seen) && Extending(w.log, parent)
             && parent(At(w, p).intent.candidate) == Some(expected)
    ensures var w := Run(log, expected, events);
            var (seen, c) := (At(w, p).seen, At(w, p).intent.candidate);
            var v := Run(log, expected, events + [Event(p, Inspect(WasHead(w.log, c)))] + more);
            v.row.state == seen ==>
              Step(v, p, Apply).row.state == if WasHead(w.log, c) then DecisionCommitted
                                             else if HeadOf(w.log) != Some(expected) then TerminalDenial
                                             else if seen.OutcomeUnknown? then RetryableFailure
                                             else seen
  {
    hide Run, Chained, Extending, WasHead, HeadOf, InspectDecision, Idle;
    var w := Run(log, expected, events);
    var Inspecting(seen, i) := At(w, p);
    var inspect := Event(p, Inspect(WasHead(w.log, i.candidate)));
    RunKeeps(log, expected, events);
    RowKeepsBinding(log, expected, events);
    InspectingIsRegistered(w, p);
    ExtendingHistoryIsUnambiguous(w.log, parent, expected, i.candidate);
    assert events + [] == events && [] + [inspect] == [inspect];
    RunSnoc(log, expected, events, [], inspect);
    IdleRun(log, expected, events + [inspect], more, p);
    RunKeeps(log, expected, events + [inspect] + more);
    var v := Run(log, expected, events + [inspect] + more);
    if v.row.state == seen { JudgedWrites(v, p); }
  }

  lemma InspectingIsRegistered(w: World, p: nat)
    requires Ok(w) && At(w, p).Inspecting?
    ensures w.row.intent == Some(At(w, p).intent) && At(w, p).intent.expected == w.row.expected && Chained(w.log)
  {
    hide Chained, WasStale, WasUntouched;
  }

  /** What a verdict does to a row that is still in the state it was read in. */
  lemma JudgedWrites(w: World, p: nat)
    requires Ok(w) && At(w, p).Judged? && w.row.state == At(w, p).seen && Undecided(At(w, p).seen)
    ensures Step(w, p, Apply).row.state ==
            match At(w, p).evidence
            case NotCommitted => if At(w, p).seen.OutcomeUnknown? then RetryableFailure else At(w, p).seen
            case StaleNotCommitted => TerminalDenial
            case Ambiguous => OutcomeUnknown
            case _ => DecisionCommitted
  {
    hide Chained, WasStale, WasUntouched;
  }

  // ----- Runs that show it -----

  /**
   * One process marks its attempt, another reads that nothing was committed, the first swaps, the
   * second writes its verdict.
   */
  function Overtaken(i: Intent): seq<Event> {
    [Event(0, Register(i)), Event(0, Mark), Event(1, Load), Event(1, Inspect(false)), Event(0, Swap), Event(1, Apply)]
  }

  /** Nobody else moves the Ref, and yet the review is open to retry while its candidate is the head. */
  lemma RetryIsAllowedAfterTheMove(expected: string, i: Intent)
    requires i.expected == expected && i.candidate != expected
    ensures var w := Run([Entry(None, expected)], expected, Overtaken(i));
            && w.row == Row(RetryableFailure, expected, Some(i), None)
            && w.log == [Entry(None, expected), Entry(Some(expected), i.candidate)]
  {
    hide Run, Step;
    var log0 := [Entry(None, expected)];
    var es := Overtaken(i);
    FirstMoves(expected, i);
    VerdictIsLate(expected, i);
    RunStarts(log0, expected, es);
    RunNext(log0, expected, es, 0);
    RunNext(log0, expected, es, 1);
    RunNext(log0, expected, es, 2);
    RunNext(log0, expected, es, 3);
    RunNext(log0, expected, es, 4);
    RunNext(log0, expected, es, 5);
    assert es[..6] == es;
  }

  /** The reader loaded an unknown outcome, which another process then found uncommitted and opened to retry. */
  function Reopened(i: Intent): seq<Event> {
    [Event(0, Register(i)), Event(0, Mark), Event(0, Crash), Event(1, Load), Event(2, Load), Event(2, Inspect(false)),
     Event(2, Apply)]
  }

  /** So the condition's first case does occur: nobody is marked, and yet the verdict can come too late. */
  lemma RetryIsLateWithNobodyMarked(expected: string, i: Intent)
    requires i.expected == expected && i.candidate != expected
    ensures var log := [Entry(None, expected)];
            var w := Run(log, expected, Reopened(i));
            && w.row.state.RetryableFailure? && !SomeMarked(w) && ReadsUncommitted(w, 1, false) && At(w, 1).intent == i
            && var read := Reopened(i) + [Event(1, Inspect(false))];
               exists more :: RetriesTooLate(log, expected, read, more, 1, i.candidate)
  {
    hide Run, Step, RetriesTooLate, InspectDecision;
    var log0 := [Entry(None, expected)];
    var es := Reopened(i);
    FirstMoves(expected, i);
    ReopenedWorld(expected, i);
    RunStarts(log0, expected, es);
    RunNext(log0, expected, es, 0);
    RunNext(log0, expected, es, 1);
    RunNext(log0, expected, es, 2);
    RunNext(log0, expected, es, 3);
    RunNext(log0, expected, es, 4);
    RunNext(log0, expected, es, 5);
    RunNext(log0, expected, es, 6);
    assert es[..7] == es && log0[0].to == expected;
    RetriesTooLateExactly(log0, expected, es, 1, false);
  }

  lemma ReopenedWorld(expected: string, i: Intent)
    requires i.expected == expected && i.candidate != expected
    ensures var loaded := Step(Step(Attempt(expected, i), 0, Crash), 1, Load);
            var w := Step(Step(Step(loaded, 2, Load), 2, Inspect(false)), 2, Apply);
            && w.row.state.RetryableFailure? && !SomeMarked(w) && ReadsUncommitted(w, 1, false) && At(w, 1).intent == i
  {
    hide InspectDecision;
    var log := [Entry(None, expected)];
    assert Chained(log) && !WasHead(log, i.candidate);
    EvidenceIsTrue(log, expected, i.candidate, false);
    var crashed := Step(Attempt(expected, i), 0, Crash);
    assert crashed.processes == map[0 := Ready];
    var loaded := Step(Step(crashed, 1, Load), 2, Load);
    assert loaded.processes == map[0 := Ready, 1 := Inspecting(OutcomeUnknown, i), 2 := Inspecting(OutcomeUnknown, i)];
    var judged := Step(loaded, 2, Inspect(false));
    assert At(judged, 2) == Judged(OutcomeUnknown, i, NotCommitted) && judged.row == loaded.row && judged.log == log;
    var w := Step(judged, 2, Apply);
    assert w.processes == map[0 := Ready, 1 := Inspecting(OutcomeUnknown, i), 2 := Ready];
  }

  lemma VerdictIsLate(expected: string, i: Intent)
    requires i.expected == expected && i.candidate != expected
    ensures var judged := Step(Step(Attempt(expected, i), 1, Load), 1, Inspect(false));
            var n := Step(Step(judged, 0, Swap), 1, Apply);
            && n.row == Row(RetryableFailure, expected, Some(i), None)
            && n.log == [Entry(None, expected), Entry(Some(expected), i.candidate)]
  {
    hide InspectDecision;
    var w := Attempt(expected, i);
    assert Chained(w.log) && !WasHead(w.log, i.candidate);
    EvidenceIsTrue(w.log, expected, i.candidate, false);
    var loaded := Step(w, 1, Load);
    assert At(loaded, 1) == Inspecting(OutcomeUnknown, i) && At(loaded, 0) == Marked(i);
    var judged := Step(loaded, 1, Inspect(false));
    assert At(judged, 1) == Judged(OutcomeUnknown, i, NotCommitted) && At(judged, 0) == Marked(i);
    var moved := Step(judged, 0, Swap);
    assert At(moved, 1) == Judged(OutcomeUnknown, i, NotCommitted) && moved.row == w.row;
  }

  /** A history in which another writer leaves the expected head and later restores it. */
  function Detour(expected: string, other: string, i: Intent): seq<Event> {
    [Event(0, Register(i)), Event(0, Mark),
     Event(1, OtherMove(other)), Event(1, Load), Event(1, Inspect(false)), Event(1, Apply),
     Event(1, OtherMove(expected)), Event(0, Swap)]
  }

  /**
   * Without that discipline the promise fails: a review denied while another writer had the Ref
   * elsewhere is still committed by the first process once the old head is back.
   */
  lemma DeniedReviewCanStillMoveTheRef(expected: string, other: string, i: Intent)
    requires i.expected == expected && i.candidate != expected && i.candidate != other && other != expected
    ensures var w := Run([Entry(None, expected)], expected, Detour(expected, other, i));
            w.row.state.TerminalDenial? && w.row.intent == Some(i) && HeadOf(w.log) == Some(i.candidate)
  {
    hide Run, Step;
    var log0 := [Entry(None, expected)];
    var es := Detour(expected, other, i);
    FirstMoves(expected, i);
    MarkedWhileAway(expected, other, i);
    RunStarts(log0, expected, es);
    RunNext(log0, expected, es, 0);
    RunNext(log0, expected, es, 1);
    RunNext(log0, expected, es, 2);
    RunNext(log0, expected, es, 3);
    RunNext(log0, expected, es, 4);
    RunNext(log0, expected, es, 5);
    RunNext(log0, expected, es, 6);
    RunNext(log0, expected, es, 7);
    assert es[..8] == es;
  }

  lemma RunNext(log: seq<Entry>, expected: string, es: seq<Event>, k: nat)
    requires k < |es|
    ensures Run(log, expected, es[..k + 1]) == Step(Run(log, expected, es[..k]), es[k].process, es[k].action)
  {
    hide Step;
    assert es[..k + 1][..k] == es[..k];
  }

  lemma RunStarts(log: seq<Entry>, expected: string, es: seq<Event>)
    ensures Run(log, expected, es[..0]) == Initial(log, expected)
  {
  }

  /** The first process registers and marks its attempt. */
  function Attempt(expected: string, i: Intent): World {
    World([Entry(None, expected)], Row(OutcomeUnknown, expected, Some(i), None), map[0 := Marked(i)])
  }

  lemma FirstMoves(expected: string, i: Intent)
    requires i.expected == expected && i.candidate != expected
    ensures Step(Step(Initial([Entry(None, expected)], expected), 0, Register(i)), 0, Mark) == Attempt(expected, i)
  {
    var w0 := Initial([Entry(None, expected)], expected);
    var w1 := Step(w0, 0, Register(i));
    assert w1 == World(w0.log, Row(PendingReview, expected, Some(i), None), map[0 := Prepared(i)]);
    assert Step(w1, 0, Mark).processes == map[0 := Marked(i)];
  }

  /**
   * Another process denies the review while the Ref is elsewhere; then the old head returns and the
   * swap goes through.
   */
  lemma MarkedWhileAway(expected: string, other: string, i: Intent)
    requires i.expected == expected && i.candidate != expected && i.candidate != other && other != expected
    ensures var away := Step(Attempt(expected, i), 1, OtherMove(other));
            var denied := Step(Step(Step(away, 1, Load), 1, Inspect(false)), 1, Apply);
            var back := Step(Step(denied, 1, OtherMove(expected)), 0, Swap);
            back.row.state.TerminalDenial? && back.row.intent == Some(i) && HeadOf(back.log) == Some(i.candidate)
  {
    hide InspectDecision;
    var log := [Entry(None, expected), Entry(Some(expected), other)];
    var away := Step(Attempt(expected, i), 1, OtherMove(other));
    assert away.log == log;
    AwayLog(expected, other, i.candidate);
    EvidenceIsTrue(log, expected, i.candidate, false);
    var loaded := Step(away, 1, Load);
    assert At(loaded, 1) == Inspecting(OutcomeUnknown, i);
    var judged := Step(loaded, 1, Inspect(false));
    assert At(judged, 1) == Judged(OutcomeUnknown, i, StaleNotCommitted);
    var denied := Step(judged, 1, Apply);
    assert denied.row.state.TerminalDenial? && At(denied, 0) == Marked(i) && denied.log == log;
    var restored := Step(denied, 1, OtherMove(expected));
    assert HeadOf(restored.log) == Some(expected) && At(restored, 0) == Marked(i);
  }

  lemma AwayLog(expected: string, other: string, candidate: string)
    requires candidate != expected && candidate != other && other != expected
    ensures var log := [Entry(None, expected), Entry(Some(expected), other)];
            Chained(log) && !WasHead(log, candidate) && HeadOf(log) == Some(other)
  {
  }
}
