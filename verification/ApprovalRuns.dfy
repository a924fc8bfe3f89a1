/** What approvals are worth over whole runs: who has access, where an accepted one came from, and what goes through. */
module ApprovalRuns {
  import opened Optional
  import opened Words
  import opened Approval

  // ----- Access -----

  function AccessWord(e: Event, project: string, actor: string): Option<bool> {
    if e == GrantEvent(project, actor) then Some(true)
    else if e == RevokeEvent(project, actor) then Some(false)
    else None
  }

  lemma AccessStep(h: Host, e: Event, project: string, actor: string)
    ensures var word := AccessWord(e, project, actor);
            Member(Step(h, e).registry, project, actor)
            <==> if word.Some? then word.value else Member(h.registry, project, actor)
  {
    hide Unexpired;
  }

  /** The last grant or revocation of the actor was a grant. */
  predicate LastWordIsGrant(events: seq<Event>, project: string, actor: string) {
    exists i | 0 <= i < |events| :: events[i] == GrantEvent(project, actor) && NeverAfter(events, i, project, actor)
  }

  predicate NeverAfter(events: seq<Event>, i: int, project: string, actor: string) {
    forall j | i < j < |events| && 0 <= j :: events[j] != RevokeEvent(project, actor)
  }

  lemma LastWordStep(events: seq<Event>, e: Event, project: string, actor: string)
    ensures var word := AccessWord(e, project, actor);
            LastWordIsGrant(events + [e], project, actor)
            <==> if word.Some? then word.value else LastWordIsGrant(events, project, actor)
  {
    var all := events + [e];
    assert all[|events|] == e;
    if LastWordIsGrant(events, project, actor) && e != RevokeEvent(project, actor) {
      var i :| 0 <= i < |events| && events[i] == GrantEvent(project, actor) && NeverAfter(events, i, project, actor);
      assert all[i] == events[i] && NeverAfter(all, i, project, actor);
    }
    if LastWordIsGrant(all, project, actor) && AccessWord(e, project, actor).None? {
      var i :| 0 <= i < |all| && all[i] == GrantEvent(project, actor) && NeverAfter(all, i, project, actor);
      assert forall j | 0 <= j < |events| :: events[j] == all[j];
      assert events[i] == all[i] && NeverAfter(events, i, project, actor);
    }
    if e == GrantEvent(project, actor) { assert NeverAfter(all, |events|, project, actor); }
  }

  /** Over every run: an actor has access exactly when the last grant or revocation of theirs was a grant. */
  lemma {:induction false} AccessIsTheLastWord(events: seq<Event>, project: string, actor: string)
    ensures Member(Run(events).registry, project, actor) <==> LastWordIsGrant(events, project, actor)
  {
    hide Step, LastWordIsGrant;
    if events == [] {
      NoWordYet(project, actor);
    } else {
      var k := |events| - 1;
      AccessIsTheLastWord(events[..k], project, actor);
      AccessStep(Run(events[..k]), events[k], project, actor);
      assert events == events[..k] + [events[k]];
      LastWordStep(events[..k], events[k], project, actor);
    }
  }

  lemma NoWordYet(project: string, actor: string)
    ensures !LastWordIsGrant([], project, actor)
  {
  }

  // ----- Revocation -----

  predicate IsFor(a: Record, project: string, actor: string) { a.project == project && a.session.actor == actor }

  /** Nothing since the marks was issued to the actor for the project or accepted in a session of theirs. */
  predicate NothingFor(h: Host, accepted: nat, mark: nat, project: string, actor: string) {
    && mark <= h.registry.nextSerial
    && (forall k | k in h.registry.approvals && mark <= k :: !IsFor(h.registry.approvals[k], project, actor))
    && (forall i | accepted <= i < |h.approved| ::
          !(h.approved[i].record.project == project && h.approved[i].session.actor == actor))
  }

  lemma NothingForStep(h: Host, e: Event, accepted: nat, mark: nat, project: string, actor: string)
    requires NothingFor(h, accepted, mark, project, actor) && !Member(h.registry, project, actor)
    ensures NothingFor(Step(h, e), accepted, mark, project, actor)
  {
    hide Unexpired;
    if e.IssueEvent? { KeptOnly(h.registry.approvals, e.now); }
    if e.CheckEvent? { NothingForCheck(h, e, accepted, mark, project, actor); }
  }

  lemma NothingForCheck(h: Host, e: Event, accepted: nat, mark: nat, project: string, actor: string)
    requires NothingFor(h, accepted, mark, project, actor) && !Member(h.registry, project, actor) && e.CheckEvent?
    ensures NothingFor(Step(h, e), accepted, mark, project, actor)
  {
    var n := Step(h, e);
    forall i | accepted <= i < |n.approved|
      ensures !(n.approved[i].record.project == project && n.approved[i].session.actor == actor) {
      if i < |h.approved| { assert n.approved[i] == h.approved[i]; }
    }
  }

  lemma {:induction false} StaysOut(events: seq<Event>, more: seq<Event>, accepted: nat, mark: nat, project: string,
                                    actor: string)
    requires NothingFor(Run(events), accepted, mark, project, actor) && !Member(Run(events).registry, project, actor)
    requires GrantEvent(project, actor) !in more
    ensures NothingFor(Run(events + more), accepted, mark, project, actor)
    ensures !Member(Run(events + more).registry, project, actor)
    decreases |more|
  {
    hide Step, NothingFor, Run;
    if more == [] {
      assert events + more == events;
    } else {
      var k := |more| - 1;
      var before := events + more[..k];
      StaysOut(events, more[..k], accepted, mark, project, actor);
      RunSnoc(before, more[k]);
      assert events + more == before + [more[k]];
      AccessStep(Run(before), more[k], project, actor);
      NothingForStep(Run(before), more[k], accepted, mark, project, actor);
    }
  }

  /**
   * Over every run and every continuation: once an actor's access is revoked, no approval is issued
   * to them for the project and none of it is accepted in a session of theirs, not even one issued
   * at the epoch ceiling, until they are granted access again.
   */
  lemma RevocationShutsOut(events: seq<Event>, more: seq<Event>, project: string, actor: string)
    requires GrantEvent(project, actor) !in more
    ensures var h, f := Run(events), Run(events + [RevokeEvent(project, actor)] + more);
            && !Member(f.registry, project, actor)
            && NothingFor(f, |h.approved|, h.registry.nextSerial, project, actor)
  {
    hide Run, NothingFor;
    var h, e := Run(events), RevokeEvent(project, actor);
    RunKeeps(events);
    RunSnoc(events, e);
    AccessStep(h, e, project, actor);
    RevokeLeavesNothing(h, project, actor);
    StaysOut(events + [e], more, |h.approved|, h.registry.nextSerial, project, actor);
  }

  lemma RevokeLeavesNothing(h: Host, project: string, actor: string)
    requires Ok(h)
    ensures NothingFor(Step(h, RevokeEvent(project, actor)), |h.approved|, h.registry.nextSerial, project, actor)
  {
    hide Fenced, ApprovedOk;
  }

  // ----- Where an accepted approval came from -----

  /** The approval was issued at that event, exactly as it stands. */
  ghost predicate IssuedAt(events: seq<Event>, i: nat, serial: nat, a: Record)
    requires i < |events|
  {
    var h := Run(events[..i]);
    && events[i] == IssueEvent(a.session, a.project, a.binding, a.intent, a.epoch, a.issuedAt, a.notAfter - a.issuedAt)
    && h.registry.nextSerial == serial && Member(h.registry, a.project, a.session.actor)
    && h.registry.projects[a.project] == a.issuedSecurity
  }

  ghost predicate WasIssued(events: seq<Event>, serial: nat, a: Record) {
    exists i: nat | i < |events| :: IssuedAt(events, i, serial, a)
  }

  ghost predicate AllIssued(events: seq<Event>, h: Host) {
    && (forall k | k in h.registry.approvals :: WasIssued(events, k, h.registry.approvals[k]))
    && (forall k | k in h.taken :: WasIssued(events, k, h.taken[k]))
    && (forall i | 0 <= i < |h.approved| :: WasIssued(events, h.approved[i].serial, h.approved[i].record))
  }

  lemma StillIssued(events: seq<Event>, e: Event, serial: nat, a: Record)
    requires WasIssued(events, serial, a)
    ensures WasIssued(events + [e], serial, a)
  {
    hide Run;
    var i: nat :| i < |events| && IssuedAt(events, i, serial, a);
    assert (events + [e])[..i] == events[..i];
    assert IssuedAt(events + [e], i, serial, a);
  }

  lemma IssueIsIssued(events: seq<Event>, e: Event)
    requires e.IssueEvent? && Issues(Run(events).registry, e.session, e.project, e.seenEpoch, e.now, e.ttl)
    ensures var r := Run(events).registry;
            WasIssued(events + [e], r.nextSerial, Record(e.session, e.project, e.binding, e.intent, e.seenEpoch, e.now,
                                                         e.now + e.ttl, r.projects[e.project]))
  {
    hide Run;
    var r := Run(events).registry;
    assert (events + [e])[..|events|] == events;
    assert IssuedAt(events + [e], |events|, r.nextSerial,
                    Record(e.session, e.project, e.binding, e.intent, e.seenEpoch, e.now, e.now + e.ttl,
                           r.projects[e.project]));
  }

  lemma AllIssuedStep(events: seq<Event>, e: Event)
    requires AllIssued(events, Run(events))
    ensures AllIssued(events + [e], Step(Run(events), e))
  {
    hide Run, WasIssued, Unexpired, Accepts, Issues;
    var h := Run(events);
    forall k, a | WasIssued(events, k, a) ensures WasIssued(events + [e], k, a) {
      StillIssued(events, e, k, a);
    }
    if e.IssueEvent? {
      KeptOnly(h.registry.approvals, e.now);
      if Issues(h.registry, e.session, e.project, e.seenEpoch, e.now, e.ttl) { IssueIsIssued(events, e); }
    }
    if e.GrantEvent? || e.RevokeEvent? { AclKeepsSerials(h.registry, e.project, e.actor); }
  }

  lemma {:induction false} RunIssuedAll(events: seq<Event>)
    ensures AllIssued(events, Run(events))
  {
    hide Step, AllIssued;
    if events == [] {
      NoneIssued();
    } else {
      var k := |events| - 1;
      RunIssuedAll(events[..k]);
      AllIssuedStep(events[..k], events[k]);
      assert events == events[..k] + [events[k]];
    }
  }

  lemma NoneIssued()
    ensures AllIssued([], Run([]))
  {
  }

  /**
   * In every run, each acceptance goes back to one issue: the same serial, session, project, binding,
   * intent and time limit, to an actor who had access then and has it now.
   */
  lemma AcceptedAsIssued(events: seq<Event>, i: nat)
    requires i < |Run(events).approved|
    ensures var x := Run(events).approved[i];
            && WasIssued(events, x.serial, x.record)
            && x.session == x.record.session && x.binding == x.record.binding && x.intent == x.record.intent
            && x.record.issuedAt <= x.at < x.record.notAfter
            && Member(x.registry, x.record.project, x.session.actor)
  {
    hide Run, WasIssued, ApprovedOk, Fenced;
    RunIssuedAll(events);
    AcceptedOnceAndUnderTheSameList(events);
    assert Accepted(Run(events).approved[i]);
  }

  // ----- What goes through -----

  /** An approval leaves the registry exactly when it is claimed with access or found expired by an issue. */
  lemma ApprovalStaysExactly(h: Host, e: Event, k: nat)
    requires Ok(h) && k in h.registry.approvals
    ensures var a := h.registry.approvals[k];
            && (k in Step(h, e).registry.approvals
                <==> && !(e.TakeEvent? && e.serial == k && Member(h.registry, a.project, e.session.actor))
                     && !(e.IssueEvent? && Issues(h.registry, e.session, e.project, e.seenEpoch, e.now, e.ttl)
                          && a.notAfter <= e.now))
            && (k in Step(h, e).registry.approvals ==> Step(h, e).registry.approvals[k] == a)
  {
    hide Fenced, ApprovedOk, Issues;
  }

  /**
   * In every run: an actor with access is issued an approval for what they asked, and claiming it in
   * the same session, for the same decision, before its time is out, is accepted.
   */
  lemma UndisturbedApprovalIsAccepted(events: seq<Event>, session: Session, project: string, binding: string,
                                      intent: string, now: int, ttl: int, at: int)
    requires var r := Run(events).registry;
             Member(r, project, session.actor) && r.nextSerial < U64_MAX && now + ttl <= I128_MAX
    requires now <= at < now + ttl
    ensures var h := Run(events);
            var (r, k) := (h.registry, h.registry.nextSerial);
            var f := Run(events + [IssueEvent(session, project, binding, intent, r.projects[project].epoch, now, ttl)]
                         + [TakeEvent(session, k)] + [CheckEvent(k, session, binding, intent, at)]);
            && |f.approved| == |h.approved| + 1 && f.approved[..|h.approved|] == h.approved
            && var x := f.approved[|h.approved|];
               x.serial == k && x.session == session && x.binding == binding && x.intent == intent && x.at == at
  {
    hide Run, Unexpired;
    var h := Run(events);
    var r, k := h.registry, h.registry.nextSerial;
    var issue := IssueEvent(session, project, binding, intent, r.projects[project].epoch, now, ttl);
    RunSnoc(events, issue);
    RunSnoc(events + [issue], TakeEvent(session, k));
    RunSnoc(events + [issue] + [TakeEvent(session, k)], CheckEvent(k, session, binding, intent, at));
  }
}
