/** One review's journal row and the atomic updates of it. */
module Journal {
  import opened Optional

  datatype ReviewState = PendingReview | RetryableFailure | OutcomeUnknown | DecisionCommitted | TerminalDenial

  /** The exact command a Decision was prepared as; `request` stands for everything besides the two heads. */
  datatype Intent = Intent(key: string, expected: string, candidate: string, request: string)

  /** `expected` is the Decision head the review is bound to. */
  datatype Row = Row(state: ReviewState, expected: string, intent: Option<Intent>, outcome: Option<Intent>)

  predicate TransitionAllowed(from: ReviewState, to: ReviewState) {
    match from
    case PendingReview => true
    case RetryableFailure => to.DecisionCommitted? || to.TerminalDenial? || to.OutcomeUnknown?
    case OutcomeUnknown => to.DecisionCommitted? || to.TerminalDenial?
    case DecisionCommitted => false
    case TerminalDenial => false
  }

  predicate Decisionable(s: ReviewState) { s.PendingReview? || s.RetryableFailure? }

  predicate Undecided(s: ReviewState) { Decisionable(s) || s.OutcomeUnknown? }

  /** Registers a command once; the same command again is a replay, any other is refused. */
  function RegisterIntent(row: Row, i: Intent): Option<Row> {
    if i.candidate == row.expected || i.expected != row.expected then None
    else if row.intent.Some? then (if row.intent.value == i then Some(row) else None)
    else if !Decisionable(row.state) then None
    else Some(row.(intent := Some(i)))
  }

  /** The general update of a review that is linked to a proposal. Committing needs its own operation. */
  function Transition(row: Row, expected: ReviewState, next: ReviewState): Option<Row> {
    if row.state != expected then None
    else if next.OutcomeUnknown? && row.intent.None? then None
    else if next.DecisionCommitted? && (!row.state.DecisionCommitted? || row.intent.None? || row.outcome.None?)
    then None
    else if row.state == next then Some(row)
    else if !TransitionAllowed(row.state, next) then None
    else Some(row.(state := next))
  }

  /** Only the row of an unknown outcome is changed, to one that may be tried again. */
  function ReconcileNotCommitted(row: Row, i: Intent): Option<Row> {
    if row.intent != Some(i) || row.outcome.Some? then None
    else
      match row.state
      case PendingReview => Some(row)
      case RetryableFailure => Some(row)
      case OutcomeUnknown => Some(row.(state := RetryableFailure))
      case _ => None
  }

  function CommitOutcome(row: Row, i: Intent): Option<Row> {
    if row.outcome.Some? then
      if row.state.DecisionCommitted? && row.outcome.value == i && row.intent == Some(i) then Some(row) else None
    else if row.intent != Some(i) || !Undecided(row.state) then None
    else Some(row.(state := DecisionCommitted, outcome := Some(i)))
  }

  /** A row is consistent: it has an outcome exactly when committed, and then it is the registered one. */
  predicate RowOk(row: Row) {
    && (row.state.DecisionCommitted? <==> row.outcome.Some?)
    && (row.outcome.Some? ==> row.outcome == row.intent)
    && (row.state.OutcomeUnknown? || row.state.DecisionCommitted? ==> row.intent.Some?)
    && (row.intent.Some? ==> row.intent.value.expected == row.expected && row.intent.value.candidate != row.expected)
  }

  /** How a row may change: settled rows and registered commands never do. */
  predicate Follows(a: Row, b: Row) {
    && RowOk(b) && b.expected == a.expected
    && (a.intent.Some? ==> b.intent == a.intent)
    && (a.outcome.Some? ==> b.outcome == a.outcome)
    && (a.state.DecisionCommitted? || a.state.TerminalDenial? ==> b.state == a.state)
  }

  /** Every journal operation keeps rows consistent and settled rows settled. */
  lemma RowsOnlySettle(row: Row, i: Intent, from: ReviewState, to: ReviewState)
    requires RowOk(row)
    ensures RegisterIntent(row, i).Some? ==> Follows(row, RegisterIntent(row, i).value)
    ensures Transition(row, from, to).Some? && !to.DecisionCommitted? ==> Follows(row, Transition(row, from, to).value)
    ensures ReconcileNotCommitted(row, i).Some? ==> Follows(row, ReconcileNotCommitted(row, i).value)
    ensures CommitOutcome(row, i).Some? ==> Follows(row, CommitOutcome(row, i).value)
  {
  }

  /** The row as the transactions update it. */
  class ReviewJournal {
    var state: ReviewState
    const expected: string
    var intent: Option<Intent>
    var outcome: Option<Intent>

    constructor (expected: string)
      ensures View() == Row(PendingReview, expected, None, None)
    {
      this.expected := expected;
      state, intent, outcome := PendingReview, None, None;
    }

    function View(): Row
      reads this
    {
      Row(state, expected, intent, outcome)
    }

    ghost predicate Leaves(before: Row, after: Option<Row>, ok: bool)
      reads this
    {
      ok == after.Some? && View() == (if ok then after.value else before)
    }

    method RegisterDecisionCommitIntent(i: Intent) returns (ok: bool)
      modifies this
      ensures Leaves(old(View()), RegisterIntent(old(View()), i), ok)
    {
      if i.candidate == expected || i.expected != expected {
        return false;
      }
      if intent.Some? {
        return intent.value == i;
      }
      if !Decisionable(state) {
        return false;
      }
      intent := Some(i);
      return true;
    }

    method TransitionReviewState(from: ReviewState, to: ReviewState) returns (ok: bool)
      modifies this
      ensures Leaves(old(View()), Transition(old(View()), from, to), ok)
    {
      if state != from {
        return false;
      }
      if to.OutcomeUnknown? && intent.None? {
        return false;
      }
      if to.DecisionCommitted? && !state.DecisionCommitted? {
        return false;
      }
      if to.DecisionCommitted? && (intent.None? || outcome.None?) {
        return false;
      }
      if state == to {
        return true;
      }
      if !TransitionAllowed(state, to) {
        return false;
      }
      state := to;
      return true;
    }

    method ReconcileDecisionNotCommitted(i: Intent) returns (ok: bool)
      modifies this
      ensures Leaves(old(View()), ReconcileNotCommitted(old(View()), i), ok)
    {
      if intent != Some(i) || outcome.Some? {
        return false;
      }
      if state.OutcomeUnknown? {
        state := RetryableFailure;
        return true;
      }
      return Decisionable(state);
    }

    method CommitDecisionOutcome(i: Intent) returns (ok: bool)
      modifies this
      ensures Leaves(old(View()), CommitOutcome(old(View()), i), ok)
    {
      if outcome.Some? {
        return state.DecisionCommitted? && outcome.value == i && intent == Some(i);
      }
      if intent != Some(i) || !Undecided(state) {
        return false;
      }
      outcome := Some(i);
      state := DecisionCommitted;
      return true;
    }
  }
}
