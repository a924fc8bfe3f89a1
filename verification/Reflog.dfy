/** The history of one Ref, and what can be concluded about a candidate head from counts over it. */
module Reflog {
  import opened Optional

  datatype Entry = Entry(from: Option<string>, to: string)

  /** Each move starts from where the previous one ended; the first creates the Ref. */
  predicate Chained(log: seq<Entry>) { forall i | 0 <= i < |log| :: log[i].from == HeadBefore(log, i) }

  /** The head the i-th move started from. */
  function HeadBefore(log: seq<Entry>, i: nat): Option<string>
    requires i <= |log|
  {
    if i == 0 then None else Some(log[i - 1].to)
  }

  function HeadOf(log: seq<Entry>): Option<string> { HeadBefore(log, |log|) }

  predicate WasHead(log: seq<Entry>, h: string) { exists i | 0 <= i < |log| :: log[i].to == h }

  /** The compare-and-swap: it moves the head only from the expected one, and records the move. */
  function Cas(log: seq<Entry>, expected: Option<string>, candidate: string): Option<seq<Entry>> {
    if HeadOf(log) == expected then Some(log + [Entry(expected, candidate)]) else None
  }

  lemma CasKeepsChain(log: seq<Entry>, expected: Option<string>, candidate: string)
    requires Chained(log) && Cas(log, expected, candidate).Some?
    ensures Chained(Cas(log, expected, candidate).value)
  {
    MoveKeepsChain(log, candidate);
  }

  lemma MoveKeepsChain(log: seq<Entry>, to: string)
    requires Chained(log)
    ensures Chained(log + [Entry(HeadOf(log), to)])
  {
    var n := log + [Entry(HeadOf(log), to)];
    forall i | 0 <= i < |n| ensures n[i].from == HeadBefore(n, i) {
      if i < |log| { LinkAt(log, i); }
    }
  }

  lemma LinkAt(log: seq<Entry>, i: nat)
    requires Chained(log) && i < |log|
    ensures log[i].from == HeadBefore(log, i)
  {
  }

  lemma ParentAt(log: seq<Entry>, parent: string -> Option<string>, i: nat)
    requires Extending(log, parent) && i < |log|
    ensures parent(log[i].to) == log[i].from
  {
  }

  lemma PrefixIsChained(log: seq<Entry>, k: nat)
    requires Chained(log) && k <= |log|
    ensures Chained(log[..k])
  {
    forall i | 0 <= i < k ensures log[..k][i].from == HeadBefore(log[..k], i) {
      LinkAt(log, i);
    }
  }

  // ----- Evidence -----

  predicate Touches(e: Entry, candidate: string) { e.from == Some(candidate) || e.to == candidate }

  function TouchCount(log: seq<Entry>, candidate: string): nat {
    if log == [] then 0
    else TouchCount(log[..|log| - 1], candidate) + (if Touches(log[|log| - 1], candidate) then 1 else 0)
  }

  function ExactCount(log: seq<Entry>, expected: Option<string>, candidate: string): nat {
    if log == [] then 0
    else
      var k := |log| - 1;
      ExactCount(log[..k], expected, candidate) + (if log[k] == Entry(expected, candidate) then 1 else 0)
  }

  datatype Evidence = NotCommitted | Committed | CommittedSuperseded | StaleNotCommitted | Ambiguous

  predicate LatestIsExact(log: seq<Entry>, expected: Option<string>, candidate: string) {
    log != [] && log[|log| - 1] == Entry(expected, candidate)
  }

  predicate LooksCommitted(log: seq<Entry>, expected: Option<string>, candidate: string) {
    && HeadOf(log) == Some(candidate)
    && TouchCount(log, candidate) == 1 && ExactCount(log, expected, candidate) == 1
    && LatestIsExact(log, expected, candidate)
  }

  /** The verdict on a Proposal move, whose expected head may be absent. */
  function InspectProposal(log: seq<Entry>, expected: Option<string>, candidate: string): Evidence {
    if LooksCommitted(log, expected, candidate) then Committed
    else if TouchCount(log, candidate) == 0 then
      if HeadOf(log) == expected && (expected.Some? || log == []) then NotCommitted else StaleNotCommitted
    else Ambiguous
  }

  /**
   * The verdict on a Decision move; `descends` is whether the current head was verified to descend
   * from the candidate.
   */
  function InspectDecision(log: seq<Entry>, expected: string, candidate: string, descends: bool): Evidence {
    if LooksCommitted(log, Some(expected), candidate) then Committed
    else if TouchCount(log, candidate) == 0 then
      if HeadOf(log) == Some(expected) then NotCommitted else StaleNotCommitted
    else if TouchCount(log, candidate) == 2 && ExactCount(log, Some(expected), candidate) == 1
            && HeadOf(log).Some? && HeadOf(log) != Some(candidate) && descends then CommittedSuperseded
    else Ambiguous
  }

  lemma {:induction false} UntouchedWasNeverHead(log: seq<Entry>, candidate: string)
    requires Chained(log)
    ensures TouchCount(log, candidate) == 0 <==> !WasHead(log, candidate)
  {
    hide Chained;
    if log != [] {
      var k := |log| - 1;
      var init := log[..k];
      PrefixIsChained(log, k);
      UntouchedWasNeverHead(init, candidate);
      assert forall i | 0 <= i < k :: init[i] == log[i];
      LinkAt(log, k);
      assert log[k].from == Some(candidate) ==> k > 0 && init[k - 1].to == candidate;
    }
  }

  lemma {:induction false} CountedExactly(log: seq<Entry>, expected: Option<string>, candidate: string)
    ensures ExactCount(log, expected, candidate) > 0 <==> Entry(expected, candidate) in log
  {
    if log != [] {
      var k := |log| - 1;
      CountedExactly(log[..k], expected, candidate);
      assert log == log[..k] + [log[k]];
    }
  }

  /**
   * Over every chained history, whoever wrote it: a denial or a retry means the candidate was never
   * a head, and a commit means the exact move happened.
   */
  lemma EvidenceIsTrue(log: seq<Entry>, expected: string, candidate: string, descends: bool)
    requires Chained(log)
    ensures var e := InspectDecision(log, expected, candidate, descends);
            && (e.NotCommitted? <==> !WasHead(log, candidate) && HeadOf(log) == Some(expected))
            && (e.StaleNotCommitted? <==> !WasHead(log, candidate) && HeadOf(log) != Some(expected))
            && (e.Committed? || e.CommittedSuperseded? ==> Entry(Some(expected), candidate) in log)
            && (e.Committed? ==> HeadOf(log) == Some(candidate))
  {
    hide Chained, TouchCount, ExactCount;
    UntouchedWasNeverHead(log, candidate);
    CountedExactly(log, Some(expected), candidate);
  }

  lemma ProposalEvidenceIsTrue(log: seq<Entry>, expected: Option<string>, candidate: string)
    requires Chained(log)
    ensures var e := InspectProposal(log, expected, candidate);
            && (e.NotCommitted? <==> !WasHead(log, candidate) && HeadOf(log) == expected)
            && (e.StaleNotCommitted? <==> !WasHead(log, candidate) && HeadOf(log) != expected)
            && (e.Committed? ==> Entry(expected, candidate) in log && HeadOf(log) == Some(candidate))
  {
    hide Chained, TouchCount, ExactCount;
    UntouchedWasNeverHead(log, candidate);
    CountedExactly(log, expected, candidate);
  }

  // ----- Histories that only extend -----

  /** Every new head has the old one as its parent, as canonical Decisions do. */
  predicate Extending(log: seq<Entry>, parent: string -> Option<string>) {
    forall i | 0 <= i < |log| :: parent(log[i].to) == log[i].from
  }

  /** Such a history never visits a head twice. */
  lemma {:induction false} HeadsNeverRepeat(log: seq<Entry>, parent: string -> Option<string>, i: nat, j: nat)
    requires Chained(log) && Extending(log, parent) && i < j < |log|
    ensures log[i].to != log[j].to
    decreases i
  {
    hide Chained, Extending;
    LinkAt(log, i);
    LinkAt(log, j);
    ParentAt(log, parent, i);
    ParentAt(log, parent, j);
    if i > 0 { HeadsNeverRepeat(log, parent, i - 1, j - 1); }
  }

  lemma {:induction false} OneVisitCounts(log: seq<Entry>, expected: Option<string>, candidate: string, k: nat)
    requires Chained(log) && k < |log| && log[k].to == candidate
    requires forall i | 0 <= i < |log| && i != k :: log[i].to != candidate
    ensures TouchCount(log, candidate) == if k == |log| - 1 then 1 else 2
    ensures ExactCount(log, expected, candidate) == if log[k].from == expected then 1 else 0
    decreases |log|
  {
    hide Chained;
    var n := |log| - 1;
    var init := log[..n];
    assert forall i | 0 <= i < n :: init[i] == log[i];
    PrefixIsChained(log, n);
    LinkAt(log, n);
    if k == n {
      UntouchedWasNeverHead(init, candidate);
      CountedExactly(init, expected, candidate);
      assert log[n].from != Some(candidate);
    } else {
      OneVisitCounts(init, expected, candidate, k);
      assert log[n].from == Some(candidate) <==> k == n - 1;
    }
  }

  /** Over an extending history the evidence is never ambiguous, and tells exactly what happened. */
  lemma ExtendingHistoryIsUnambiguous(log: seq<Entry>, parent: string -> Option<string>, expected: string,
                                      candidate: string)
    requires Chained(log) && Extending(log, parent) && parent(candidate) == Some(expected)
    ensures InspectDecision(log, expected, candidate, WasHead(log, candidate)) ==
            if !WasHead(log, candidate) then (if HeadOf(log) == Some(expected) then NotCommitted else StaleNotCommitted)
            else if HeadOf(log) == Some(candidate) then Committed
            else CommittedSuperseded
  {
    hide Chained, Extending;
    UntouchedWasNeverHead(log, candidate);
    if WasHead(log, candidate) {
      var k :| 0 <= k < |log| && log[k].to == candidate;
      ParentAt(log, parent, k);
      forall i | 0 <= i < |log| && i != k ensures log[i].to != candidate {
        if i < k { HeadsNeverRepeat(log, parent, i, k); } else { HeadsNeverRepeat(log, parent, k, i); }
      }
      OneVisitCounts(log, Some(expected), candidate, k);
      if k < |log| - 1 { HeadsNeverRepeat(log, parent, k, |log| - 1); }
    }
  }

  /**
   * Once such a history has left the expected head without taking the candidate, the candidate
   * can never become a head in any extending continuation.
   */
  lemma LeftBehindForever(log: seq<Entry>, parent: string -> Option<string>, expected: string, candidate: string,
                          k: nat)
    requires Chained(log) && Extending(log, parent) && parent(candidate) == Some(expected)
    requires k <= |log| && WasHead(log[..k], expected) && !WasHead(log[..k], candidate)
             && HeadOf(log[..k]) != Some(expected)
    ensures !WasHead(log, candidate)
  {
    hide Chained, Extending;
    var m :| 0 <= m < k && log[..k][m].to == expected;
    forall j | 0 <= j < |log| ensures log[j].to != candidate {
      if j < k {
        assert log[..k][j].to != candidate;
      } else {
        LinkAt(log, j);
        ParentAt(log, parent, j);
        if j == k { assert log[..k][k - 1] == log[k - 1]; } else { HeadsNeverRepeat(log, parent, m, j - 1); }
      }
    }
  }
}
