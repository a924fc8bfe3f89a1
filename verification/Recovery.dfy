/**
 * Deciding one durable review with crashes anywhere: processes register, mark, swap, commit and
 * reconcile step by step while other writers move the same Ref.
 */
module Recovery {
  import opened Optional
  import opened Reflog
  import opened Journal

  /** What one process remembers between its transactions. A crash forgets it. */
  datatype Process =
    | Ready
    | Prepared(intent: Intent)
    | Marked(intent: Intent)
    | Published(intent: Intent)
    | Inspecting(seen: ReviewState, intent: Intent)
    | Judged(seen: ReviewState, intent: Intent, evidence: Evidence)

  datatype World = World(log: seq<Entry>, row: Row, processes: map<nat, Process>)

  function At(w: World, p: nat): Process { if p in w.processes then w.processes[p] else Ready }

  function With(w: World, p: nat, s: Process): World { w.(processes := w.processes[p := s]) }

  datatype Action =
    | Register(intent: Intent)
    | Mark
    | Swap
    | Checkout
    | Load
    | Inspect(descends: bool)
    | Apply
    | Crash
    | OtherMove(to: string)

  datatype Event = Event(process: nat, action: Action)

  /** The row after an update, or the old one when the update was refused. */
  function Updated(w: World, r: Option<Row>): World { if r.Some? then w.(row := r.value) else w }

  function Step(w: World, p: nat, a: Action): World {
    if a.OtherMove? then w.(log := w.log + [Entry(HeadOf(w.log), a.to)])
    else if a.Crash? then With(w, p, Ready)
    else
      match (At(w, p), a)
      case (Ready, Register(intent)) =>
        var r := RegisterIntent(w.row, intent);
        if Decisionable(w.row.state) && r.Some? then With(Updated(w, r), p, Prepared(intent)) else w
      case (Prepared(intent), Mark) => MarkStep(w, p, intent)
      case (Marked(intent), Swap) =>
        var log := Cas(w.log, Some(intent.expected), intent.candidate);
        if log.Some? then With(w.(log := log.value), p, Published(intent)) else With(w, p, Ready)
      case (Published(intent), Checkout) =>
        // The checkout requires the Ref to be at the new head.
        if HeadOf(w.log) == Some(intent.candidate) then With(Updated(w, CommitOutcome(w.row, intent)), p, Ready)
        else With(w, p, Ready)
      case (Ready, Load) =>
        if Undecided(w.row.state) && w.row.intent.Some? then With(w, p, Inspecting(w.row.state, w.row.intent.value))
        else w
      case (Inspecting(seen, intent), Inspect(descends)) =>
        With(w, p, Judged(seen, intent, InspectDecision(w.log, intent.expected, intent.candidate, descends)))
      case (Judged(seen, intent, evidence), Apply) =>
        With(Updated(w, Reconciled(w.row, seen, intent, evidence)), p, Ready)
      case _ => w
  }

  /** The attempt is marked unknown before its one swap. */
  function MarkStep(w: World, p: nat, intent: Intent): World {
    if w.row.intent != Some(intent) || !Decisionable(w.row.state) then With(w, p, Ready)
    else
      var r := Transition(w.row, w.row.state, OutcomeUnknown);
      if r.Some? then With(Updated(w, r), p, Marked(intent)) else With(w, p, Ready)
  }

  /** What reconciliation does to the row it read earlier, given the evidence it found since. */
  function Reconciled(row: Row, seen: ReviewState, intent: Intent, e: Evidence): Option<Row> {
    match e
    case NotCommitted => if seen.OutcomeUnknown? then ReconcileNotCommitted(row, intent) else Some(row)
    case Committed => CommitOutcome(row, intent)
    case CommittedSuperseded => CommitOutcome(row, intent)
    case StaleNotCommitted => Transition(row, seen, TerminalDenial)
    case Ambiguous => if Decisionable(seen) then Transition(row, seen, OutcomeUnknown) else Some(row)
  }

  function Initial(log: seq<Entry>, expected: string): World {
    World(log, Row(PendingReview, expected, None, None), map[])
  }

  function Run(log: seq<Entry>, expected: string, events: seq<Event>): World {
    if events == [] then Initial(log, expected)
    else
      var last := events[|events| - 1];
      Step(Run(log, expected, events[..|events| - 1]), last.process, last.action)
  }

  // ----- What every step keeps -----

  predicate Happened(log: seq<Entry>, i: Intent) { Entry(Some(i.expected), i.candidate) in log }

  /** The head has left the expected one, and the candidate was never a head. */
  predicate Stale(log: seq<Entry>, i: Intent) {
    WasHead(log, i.expected) && !WasHead(log, i.candidate) && HeadOf(log) != Some(i.expected)
  }

  /** The head is the expected one, and the candidate was never a head. */
  predicate Untouched(log: seq<Entry>, i: Intent) { !WasHead(log, i.candidate) && HeadOf(log) == Some(i.expected) }

  /** That was so at some point of the history. */
  ghost predicate WasStale(log: seq<Entry>, i: Intent) { exists k | 0 <= k <= |log| :: Stale(log[..k], i) }

  ghost predicate WasUntouched(log: seq<Entry>, i: Intent) { exists k | 0 <= k <= |log| :: Untouched(log[..k], i) }

  ghost predicate ProcessOk(w: World, s: Process) {
    match s
    case Ready => true
    case Prepared(intent) => w.row.intent == Some(intent)
    case Marked(intent) => w.row.intent == Some(intent)
    case Published(intent) => w.row.intent == Some(intent) && Happened(w.log, intent)
    case Inspecting(_, intent) => w.row.intent == Some(intent)
    case Judged(_, intent, e) =>
      && w.row.intent == Some(intent)
      && (e.Committed? || e.CommittedSuperseded? ==> Happened(w.log, intent))
      && (e.StaleNotCommitted? ==> WasStale(w.log, intent))
      && (e.NotCommitted? ==> WasUntouched(w.log, intent))
  }

  ghost predicate Ok(w: World) {
    && Chained(w.log) && WasHead(w.log, w.row.expected) && RowOk(w.row)
    && (w.row.state.DecisionCommitted? ==> Happened(w.log, w.row.intent.value))
    && (w.row.state.TerminalDenial? ==> w.row.intent.Some? && WasStale(w.log, w.row.intent.value))
    && (w.row.state.RetryableFailure? ==> w.row.intent.Some? && WasUntouched(w.log, w.row.intent.value))
    && forall p | p in w.processes :: ProcessOk(w, w.processes[p])
  }

  lemma StaleStays(log: seq<Entry>, more: seq<Entry>, i: Intent)
    requires WasStale(log, i)
    ensures WasStale(log + more, i)
  {
    hide Stale;
    var k :| 0 <= k <= |log| && Stale(log[..k], i);
    assert (log + more)[..k] == log[..k];
  }

  lemma UntouchedStays(log: seq<Entry>, more: seq<Entry>, i: Intent)
    requires WasUntouched(log, i)
    ensures WasUntouched(log + more, i)
  {
    hide Untouched;
    var k :| 0 <= k <= |log| && Untouched(log[..k], i);
    assert (log + more)[..k] == log[..k];
  }

  lemma HeadsStay(log: seq<Entry>, more: seq<Entry>, h: string)
    requires WasHead(log, h)
    ensures WasHead(log + more, h)
  {
    var i :| 0 <= i < |log| && log[i].to == h;
    assert (log + more)[i].to == h;
  }

  /** Processes are undisturbed by a longer history and a row that follows. */
  lemma ProcessSurvives(w: World, n: World, more: seq<Entry>, s: Process)
    requires ProcessOk(w, s) && n.log == w.log + more && Follows(w.row, n.row)
    ensures ProcessOk(n, s)
  {
    hide WasStale, WasUntouched;
    if s.Judged? && s.evidence.StaleNotCommitted? { StaleStays(w.log, more, s.intent); }
    if s.Judged? && s.evidence.NotCommitted? { UntouchedStays(w.log, more, s.intent); }
  }

  lemma OthersSurvive(w: World, n: World, more: seq<Entry>)
    requires Ok(w) && n.log == w.log + more && Follows(w.row, n.row) && n.processes == w.processes
    ensures forall p | p in n.processes :: ProcessOk(n, n.processes[p])
  {
    hide ProcessOk, Chained, WasStale, WasUntouched, Follows;
    forall p | p in n.processes ensures ProcessOk(n, n.processes[p]) {
      ProcessSurvives(w, n, more, w.processes[p]);
    }
  }

  /** A consistent world stays so when its history or its row moves on. */
  lemma MovedOn(w: World, n: World, more: seq<Entry>)
    requires Ok(w) && n.log == w.log + more && Chained(n.log) && Follows(w.row, n.row) && n.processes == w.processes
    requires n.row.state.DecisionCommitted? ==> w.row.state.DecisionCommitted? || Happened(n.log, n.row.intent.value)
    requires n.row.state.TerminalDenial? ==>
               w.row.state.TerminalDenial? || (n.row.intent.Some? && WasStale(n.log, n.row.intent.value))
    requires n.row.state.RetryableFailure? ==>
               w.row.state.RetryableFailure? || (n.row.intent.Some? && WasUntouched(n.log, n.row.intent.value))
    ensures Ok(n)
  {
    hide ProcessOk, Chained, WasStale, WasUntouched;
    OthersSurvive(w, n, more);
    HeadsStay(w.log, more, w.row.expected);
    if w.row.state.TerminalDenial? { StaleStays(w.log, more, w.row.intent.value); }
    if w.row.state.RetryableFailure? { UntouchedStays(w.log, more, w.row.intent.value); }
  }

  lemma Advance(w: World, p: nat, s: Process)
    requires Ok(w) && ProcessOk(w, s)
    ensures Ok(With(w, p, s))
  {
    hide Chained, WasStale, WasUntouched;
  }

  lemma SameFollows(row: Row)
    requires RowOk(row)
    ensures Follows(row, row)
  {
  }

  lemma OtherMoveKeeps(w: World, to: string)
    requires Ok(w)
    ensures Ok(w.(log := w.log + [Entry(HeadOf(w.log), to)]))
  {
    hide Chained, ProcessOk, WasStale, WasUntouched;
    MoveKeepsChain(w.log, to);
    MovedOn(w, w.(log := w.log + [Entry(HeadOf(w.log), to)]), [Entry(HeadOf(w.log), to)]);
  }

  lemma RegisterKeeps(w: World, p: nat, i: Intent)
    requires Ok(w)
    ensures Ok(Step(w, p, Register(i)))
  {
    hide Chained, ProcessOk, WasStale, WasUntouched, RegisterIntent;
    var r := RegisterIntent(w.row, i);
    if At(w, p).Ready? && Decisionable(w.row.state) && r.Some? {
      RowsOnlySettle(w.row, i, PendingReview, PendingReview);
      RegisterKeepsState(w.row, i);
      var n := Updated(w, r);
      assert w.log + [] == w.log;
      MovedOn(w, n, []);
      PreparedIsOk(n, i);
      Advance(n, p, Prepared(i));
    }
  }

  lemma PreparedIsOk(w: World, i: Intent)
    requires w.row.intent == Some(i)
    ensures ProcessOk(w, Prepared(i)) && ProcessOk(w, Marked(i))
  {
  }

  lemma RegisterKeepsState(row: Row, i: Intent)
    requires RegisterIntent(row, i).Some?
    ensures var n := RegisterIntent(row, i).value; n.state == row.state && n.intent == Some(i)
  {
  }

  lemma MarkKeeps(w: World, p: nat, i: Intent)
    requires Ok(w)
    ensures Ok(MarkStep(w, p, i))
  {
    hide Chained, ProcessOk, WasStale, WasUntouched;
    ReadyIsOk(w);
    if w.row.intent == Some(i) && Decisionable(w.row.state) && Transition(w.row, w.row.state, OutcomeUnknown).Some? {
      RowsOnlySettle(w.row, i, w.row.state, OutcomeUnknown);
      var n := Updated(w, Transition(w.row, w.row.state, OutcomeUnknown));
      assert w.log + [] == w.log;
      MovedOn(w, n, []);
      PreparedIsOk(n, i);
      Advance(n, p, Marked(i));
    } else {
      Advance(w, p, Ready);
    }
  }

  lemma ReadyIsOk(w: World)
    ensures ProcessOk(w, Ready)
  {
  }

  lemma SwapKeeps(w: World, p: nat)
    requires Ok(w) && At(w, p).Marked?
    ensures Ok(Step(w, p, Swap))
  {
    hide Chained, WasStale, WasUntouched;
    var i := At(w, p).intent;
    var log := Cas(w.log, Some(i.expected), i.candidate);
    if log.Some? {
      CasKeepsChain(w.log, Some(i.expected), i.candidate);
      var more := [Entry(Some(i.expected), i.candidate)];
      SameFollows(w.row);
      MovedOn(w, w.(log := log.value), more);
      assert log.value[|w.log|] == more[0];
      Advance(w.(log := log.value), p, Published(i));
    } else {
      Advance(w, p, Ready);
    }
  }

  lemma CheckoutKeeps(w: World, p: nat)
    requires Ok(w) && At(w, p).Published?
    ensures Ok(Step(w, p, Checkout))
  {
    hide Chained, WasStale, WasUntouched;
    var i := At(w, p).intent;
    Advance(w, p, Ready);
    if HeadOf(w.log) == Some(i.candidate) {
      CommitKeeps(w, i);
      Advance(Updated(w, CommitOutcome(w.row, i)), p, Ready);
    }
  }

  lemma CommitKeeps(w: World, i: Intent)
    requires Ok(w) && Happened(w.log, i)
    ensures Ok(Updated(w, CommitOutcome(w.row, i)))
  {
    hide Chained, WasStale, WasUntouched, ProcessOk;
    if CommitOutcome(w.row, i).Some? {
      RowsOnlySettle(w.row, i, PendingReview, PendingReview);
      assert w.log + [] == w.log;
      MovedOn(w, Updated(w, CommitOutcome(w.row, i)), []);
    }
  }

  lemma InspectKeeps(w: World, p: nat, descends: bool)
    requires Ok(w) && At(w, p).Inspecting?
    ensures Ok(Step(w, p, Inspect(descends)))
  {
    hide Chained, InspectDecision;
    var Inspecting(seen, i) := At(w, p);
    var e := InspectDecision(w.log, i.expected, i.candidate, descends);
    EvidenceIsTrue(w.log, i.expected, i.candidate, descends);
    assert w.log[..|w.log|] == w.log;
    Advance(w, p, Judged(seen, i, e));
  }

  lemma ApplyKeeps(w: World, p: nat)
    requires Ok(w) && At(w, p).Judged?
    ensures Ok(Step(w, p, Apply))
  {
    hide Chained, WasStale, WasUntouched;
    var Judged(seen, i, e) := At(w, p);
    var n := Updated(w, Reconciled(w.row, seen, i, e));
    assert w.log + [] == w.log;
    RowsOnlySettle(w.row, i, seen, TerminalDenial);
    RowsOnlySettle(w.row, i, seen, OutcomeUnknown);
    SameFollows(w.row);
    MovedOn(w, n, []);
    Advance(n, p, Ready);
  }

  lemma StepKeeps(w: World, p: nat, a: Action)
    requires Ok(w)
    ensures Ok(Step(w, p, a))
  {
    hide Ok, MarkStep, Reconciled, Cas;
    match a
    case OtherMove(to) => OtherMoveKeeps(w, to);
    case Crash => CrashKeeps(w, p);
    case Register(i) => RegisterKeeps(w, p, i);
    case Mark => if At(w, p).Prepared? { MarkKeeps(w, p, At(w, p).intent); }
    case Swap => if At(w, p).Marked? { SwapKeeps(w, p); }
    case Checkout => if At(w, p).Published? { CheckoutKeeps(w, p); }
    case Load => LoadKeeps(w, p);
    case Inspect(descends) => if At(w, p).Inspecting? { InspectKeeps(w, p, descends); }
    case Apply => if At(w, p).Judged? { ApplyKeeps(w, p); }
  }

  lemma CrashKeeps(w: World, p: nat)
    requires Ok(w)
    ensures Ok(With(w, p, Ready))
  {
    hide Ok;
    Advance(w, p, Ready);
  }

  lemma LoadKeeps(w: World, p: nat)
    requires Ok(w)
    ensures Ok(Step(w, p, Load))
  {
    hide Ok;
    if At(w, p).Ready? && Undecided(w.row.state) && w.row.intent.Some? {
      Advance(w, p, Inspecting(w.row.state, w.row.intent.value));
    }
  }

  lemma {:induction false} RunKeeps(log: seq<Entry>, expected: string, events: seq<Event>)
    requires Chained(log) && WasHead(log, expected)
    ensures Ok(Run(log, expected, events))
  {
    hide Step, Chained;
    if events != [] {
      var last := events[|events| - 1];
      RunKeeps(log, expected, events[..|events| - 1]);
      StepKeeps(Run(log, expected, events[..|events| - 1]), last.process, last.action);
    }
  }

  // ----- The theorems -----

  /**
   * With crashes anywhere and other writers moving the Ref at will: a committed review's exact move
   * is in the history.
   */
  lemma CommittedOnlyIfMoved(log: seq<Entry>, expected: string, events: seq<Event>)
    requires Chained(log) && WasHead(log, expected) && Run(log, expected, events).row.state.DecisionCommitted?
    ensures var w := Run(log, expected, events);
            && w.row.intent.Some? && w.row.outcome == w.row.intent && w.row.intent.value.expected == expected
            && Entry(Some(expected), w.row.intent.value.candidate) in w.log
  {
    hide Run, Chained, ProcessOk, WasStale, WasUntouched;
    RunKeeps(log, expected, events);
    RowKeepsBinding(log, expected, events);
  }

  /**
   * In every run a denied review's candidate had never been a head at a point where the head had
   * left the expected one, and a review open to retry had its candidate never a head at a point
   * where the head was the expected one.
   */
  lemma DenialAndRetryWereTrueOnce(log: seq<Entry>, expected: string, events: seq<Event>)
    requires Chained(log) && WasHead(log, expected)
    ensures var w := Run(log, expected, events);
            && (w.row.state.TerminalDenial? ==> w.row.intent.Some? && WasStale(w.log, w.row.intent.value))
            && (w.row.state.RetryableFailure? ==> w.row.intent.Some? && WasUntouched(w.log, w.row.intent.value))
            && (w.row.intent.Some? ==> w.row.intent.value.expected == expected)
  {
    hide Run, Chained, ProcessOk, WasStale, WasUntouched;
    RunKeeps(log, expected, events);
    RowKeepsBinding(log, expected, events);
  }

  lemma {:induction false} RowKeepsBinding(log: seq<Entry>, expected: string, events: seq<Event>)
    ensures Run(log, expected, events).row.expected == expected
  {
    hide Cas, InspectDecision;
    if events != [] { RowKeepsBinding(log, expected, events[..|events| - 1]); }
  }

  /** The history of a run is the start of the history of every continuation. */
  lemma {:induction false} HistoryOnlyGrows(log: seq<Entry>, expected: string, events: seq<Event>, more: seq<Event>)
    ensures Run(log, expected, events).log <= Run(log, expected, events + more).log
  {
    hide Step;
    if more == [] {
      assert events + more == events;
    } else {
      var k := |more| - 1;
      var all := events + more;
      assert all[..|all| - 1] == events + more[..k] && all[|all| - 1] == more[k];
      HistoryOnlyGrows(log, expected, events, more[..k]);
      StepGrows(Run(log, expected, events + more[..k]), more[k].process, more[k].action);
    }
  }

  lemma StepGrows(w: World, p: nat, a: Action)
    ensures w.log <= Step(w, p, a).log
  {
    hide InspectDecision, Reconciled;
  }

  /**
   * If the whole history only extends, as canonical Decisions do, then a review denied at any
   * point of a run is never committed by any continuation: its candidate never becomes a head.
   */
  lemma DeniedNeverCommits(log: seq<Entry>, expected: string, events: seq<Event>, more: seq<Event>,
                           parent: string -> Option<string>)
    requires Chained(log) && WasHead(log, expected) && Run(log, expected, events).row.state.TerminalDenial?
    requires Extending(Run(log, expected, events + more).log, parent)
    requires Run(log, expected, events).row.intent.Some? ==>
               parent(Run(log, expected, events).row.intent.value.candidate) == Some(expected)
    ensures Run(log, expected, events).row.intent.Some?
    ensures !WasHead(Run(log, expected, events + more).log, Run(log, expected, events).row.intent.value.candidate)
  {
    hide Run, Chained, Extending, ProcessOk, WasHead, HeadOf;
    RunKeeps(log, expected, events);
    RunKeeps(log, expected, events + more);
    RowKeepsBinding(log, expected, events);
    HistoryOnlyGrows(log, expected, events, more);
    var before, after := Run(log, expected, events), Run(log, expected, events + more);
    var i := before.row.intent.value;
    var k :| 0 <= k <= |before.log| && Stale(before.log[..k], i);
    assert after.log[..k] == before.log[..k];
    LeftBehindForever(after.log, parent, expected, i.candidate, k);
  }
}
