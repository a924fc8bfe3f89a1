/** One-shot host approvals for artifact decisions: the registry, its steps, and what every run keeps. */
module Approval {
  import opened Optional
  import opened Words
  import Security
  type ProjectSecurity = Security.ProjectSecurity
  type Session = Security.Session

  /** An approval, with the project security it was issued under, which no check reads. */
  datatype Record = Record(
    session: Session, project: string, binding: string, intent: string,
    epoch: nat, issuedAt: int, notAfter: int, issuedSecurity: ProjectSecurity)

  datatype Registry = Registry(nextSerial: nat, projects: map<string, ProjectSecurity>, approvals: map<nat, Record>)

  function SecurityOf(r: Registry, project: string): ProjectSecurity {
    if project in r.projects then r.projects[project] else Security.ProjectSecurity(1, {})
  }

  function Bumped(epoch: nat): nat { if epoch >= U64_MAX then epoch else epoch + 1 }

  /** The access list changes before the epoch does, and stays changed when the epoch cannot. */
  function Grant(r: Registry, project: string, actor: string): Registry {
    var s := SecurityOf(r, project);
    r.(projects := r.projects[project :=
      if actor in s.allowed then s else Security.ProjectSecurity(Bumped(s.epoch), s.allowed + {actor})])
  }

  function Revoke(r: Registry, project: string, actor: string): Registry {
    if project !in r.projects || actor !in r.projects[project].allowed then r
    else
      var s := r.projects[project];
      r.(projects := r.projects[project := Security.ProjectSecurity(Bumped(s.epoch), s.allowed - {actor})])
  }

  predicate Member(r: Registry, project: string, actor: string) {
    project in r.projects && actor in r.projects[project].allowed
  }

  predicate Issues(r: Registry, session: Session, project: string, seenEpoch: nat, now: int, ttl: int) {
    && now < now + ttl <= I128_MAX
    && Member(r, project, session.actor) && r.projects[project].epoch == seenEpoch
  }

  /** Issuing first drops the approvals that have expired; it keeps that even when it runs out of serials. */
  function Issue(r: Registry, session: Session, project: string, binding: string, intent: string,
                 seenEpoch: nat, now: int, ttl: int): Registry
  {
    if !Issues(r, session, project, seenEpoch, now, ttl) then r
    else
      var kept := Unexpired(r.approvals, now);
      if r.nextSerial >= U64_MAX then r.(approvals := kept)
      else
        r.(nextSerial := r.nextSerial + 1,
           approvals := kept[r.nextSerial :=
             Record(session, project, binding, intent, seenEpoch, now, now + ttl, r.projects[project])])
  }

  function Unexpired(approvals: map<nat, Record>, now: int): map<nat, Record> {
    map k | k in approvals && now < approvals[k].notAfter :: approvals[k]
  }

  predicate Claims(r: Registry, session: Session, serial: nat) {
    serial in r.approvals && Member(r, r.approvals[serial].project, session.actor)
  }

  /** The claim's checks, made after the record is already spent. */
  predicate Accepts(r: Registry, a: Record, session: Session, binding: string, intent: string, now: int) {
    && a.session == session && a.binding == binding && a.intent == intent
    && a.issuedAt <= now < a.notAfter
    && Member(r, a.project, session.actor) && r.projects[a.project].epoch == a.epoch
  }

  // ----- The registry in place -----

  class ArtifactApprovalRegistry {
    var nextSerial: nat
    var projects: map<string, ProjectSecurity>
    var approvals: map<nat, Record>

    constructor ()
      ensures View() == Registry(1, map[], map[])
    {
      nextSerial, projects, approvals := 1, map[], map[];
    }

    function View(): Registry
      reads this
    {
      Registry(nextSerial, projects, approvals)
    }

    method GrantProjectAccess(project: string, actor: string) returns (ok: bool)
      modifies this
      ensures View() == Grant(old(View()), project, actor)
      ensures ok <==> Member(old(View()), project, actor) || SecurityOf(old(View()), project).epoch < U64_MAX
    {
      if project !in projects {
        projects := projects[project := Security.ProjectSecurity(1, {})];
      }
      var s := projects[project];
      ok := true;
      if actor !in s.allowed {
        projects := projects[project := s.(allowed := s.allowed + {actor})];
        if s.epoch >= U64_MAX {
          return false;
        }
        projects := projects[project := projects[project].(epoch := s.epoch + 1)];
      }
    }

    method RevokeProjectAccess(project: string, actor: string) returns (ok: bool)
      modifies this
      ensures View() == Revoke(old(View()), project, actor)
      ensures ok <==> !Member(old(View()), project, actor) || SecurityOf(old(View()), project).epoch < U64_MAX
    {
      ok := true;
      if project in projects && actor in projects[project].allowed {
        var s := projects[project];
        projects := projects[project := s.(allowed := s.allowed - {actor})];
        if s.epoch >= U64_MAX {
          return false;
        }
        projects := projects[project := projects[project].(epoch := s.epoch + 1)];
      }
    }

    method IssueArtifactDecision(session: Session, project: string, binding: string, intent: string,
                                 seenEpoch: nat, now: int, ttl: int)
      returns (serial: Option<nat>)
      modifies this
      ensures View() == Issue(old(View()), session, project, binding, intent, seenEpoch, now, ttl)
      ensures serial == if Issues(old(View()), session, project, seenEpoch, now, ttl) && old(nextSerial) < U64_MAX
                        then Some(old(nextSerial)) else None
    {
      hide Unexpired;
      if now + ttl > I128_MAX || now >= now + ttl {
        return None;
      }
      if !Member(View(), project, session.actor) || projects[project].epoch != seenEpoch {
        return None;
      }
      approvals := Unexpired(approvals, now);
      if nextSerial >= U64_MAX {
        return None;
      }
      serial := Some(nextSerial);
      approvals := approvals[nextSerial := Record(session, project, binding, intent, seenEpoch, now, now + ttl,
                                                  projects[project])];
      nextSerial := nextSerial + 1;
    }

    /** Removes the record before anything about it is compared. */
    method TakeApproval(session: Session, serial: nat) returns (record: Option<Record>)
      modifies this
      ensures record == if Claims(old(View()), session, serial) then Some(old(approvals)[serial]) else None
      ensures View() == old(View()).(approvals := if record.Some? then old(approvals) - {serial} else old(approvals))
    {
      if serial !in approvals {
        return None;
      }
      if !Member(View(), approvals[serial].project, session.actor) {
        return None;
      }
      record := Some(approvals[serial]);
      approvals := approvals - {serial};
    }
  }

  // ----- Runs -----

  datatype Approved = Approved(serial: nat, record: Record, registry: Registry, session: Session, binding: string,
                               intent: string, at: int)

  /** The registry, the records removed but not yet checked, and every claim that succeeded. */
  datatype Host = Host(registry: Registry, taken: map<nat, Record>, spent: set<nat>, approved: seq<Approved>)

  datatype Event =
    | GrantEvent(project: string, actor: string)
    | RevokeEvent(project: string, actor: string)
    | IssueEvent(session: Session, project: string, binding: string, intent: string, seenEpoch: nat, now: int, ttl: int)
    | TakeEvent(session: Session, serial: nat)
    | CheckEvent(serial: nat, session: Session, binding: string, intent: string, now: int)

  function Step(h: Host, e: Event): Host {
    match e
    case GrantEvent(project, actor) => h.(registry := Grant(h.registry, project, actor))
    case RevokeEvent(project, actor) => h.(registry := Revoke(h.registry, project, actor))
    case IssueEvent(session, project, binding, intent, seenEpoch, now, ttl) =>
      h.(registry := Issue(h.registry, session, project, binding, intent, seenEpoch, now, ttl))
    case TakeEvent(session, serial) =>
      if Claims(h.registry, session, serial) then
        h.(registry := h.registry.(approvals := h.registry.approvals - {serial}),
           taken := h.taken[serial := h.registry.approvals[serial]], spent := h.spent + {serial})
      else h
    case CheckEvent(serial, session, binding, intent, now) =>
      if serial !in h.taken then h
      else
        var left := h.(taken := h.taken - {serial});
        if Accepts(h.registry, h.taken[serial], session, binding, intent, now)
        then left.(approved := h.approved + [Approved(serial, h.taken[serial], h.registry, session, binding, intent,
                                                      now)])
        else left
  }

  function Run(events: seq<Event>): Host {
    if events == [] then Host(Registry(1, map[], map[]), map[], {}, [])
    else Step(Run(events[..|events| - 1]), events[|events| - 1])
  }

  /** Below the ceiling, an epoch that has not moved pins the access list. */
  predicate Fenced(r: Registry, a: Record) {
    && a.issuedSecurity.epoch == a.epoch && a.issuedAt < a.notAfter
    && a.project in r.projects && a.epoch <= r.projects[a.project].epoch
    && (r.projects[a.project].epoch == a.epoch && a.epoch < U64_MAX ==> r.projects[a.project] == a.issuedSecurity)
  }

  predicate ApprovedOk(x: Approved) {
    && Fenced(x.registry, x.record) && x.record.project in x.registry.projects
    && Accepts(x.registry, x.record, x.session, x.binding, x.intent, x.at)
  }

  ghost predicate Ok(h: Host) {
    && (forall p | p in h.registry.projects :: h.registry.projects[p].epoch <= U64_MAX)
    && (forall k | k in h.registry.approvals ::
          k < h.registry.nextSerial && k !in h.spent && Fenced(h.registry, h.registry.approvals[k]))
    && (forall k | k in h.taken :: k in h.spent && Fenced(h.registry, h.taken[k]))
    && (forall k | k in h.spent :: k < h.registry.nextSerial)
    && (forall i | 0 <= i < |h.approved| ::
          ApprovedOk(h.approved[i]) && h.approved[i].serial in h.spent && h.approved[i].serial !in h.taken)
    && (forall i, j | 0 <= i < j < |h.approved| :: h.approved[i].serial != h.approved[j].serial)
  }

  lemma GrantFenced(r: Registry, project: string, actor: string, a: Record)
    requires Fenced(r, a)
    ensures Fenced(Grant(r, project, actor), a) && Fenced(Revoke(r, project, actor), a)
  {
  }

  lemma AclStepKeeps(h: Host, e: Event)
    requires Ok(h) && (e.GrantEvent? || e.RevokeEvent?)
    ensures Ok(Step(h, e))
  {
    hide Fenced, Grant, Revoke, ApprovedOk;
    AclKeepsSerials(h.registry, e.project, e.actor);
    forall a | Fenced(h.registry, a) ensures Fenced(Step(h, e).registry, a) {
      GrantFenced(h.registry, e.project, e.actor, a);
    }
  }

  lemma AclKeepsSerials(r: Registry, project: string, actor: string)
    ensures Grant(r, project, actor).approvals == r.approvals && Grant(r, project, actor).nextSerial == r.nextSerial
    ensures Revoke(r, project, actor).approvals == r.approvals && Revoke(r, project, actor).nextSerial == r.nextSerial
    ensures (forall p | p in r.projects :: r.projects[p].epoch <= U64_MAX) ==>
              && (forall p | p in Grant(r, project, actor).projects ::
                    Grant(r, project, actor).projects[p].epoch <= U64_MAX)
              && (forall p | p in Revoke(r, project, actor).projects ::
                    Revoke(r, project, actor).projects[p].epoch <= U64_MAX)
  {
  }

  lemma IssueStepKeeps(h: Host, e: Event)
    requires Ok(h) && e.IssueEvent?
    ensures Ok(Step(h, e))
  {
    hide ApprovedOk;
  }

  lemma TakeStepKeeps(h: Host, e: Event)
    requires Ok(h) && e.TakeEvent?
    ensures Ok(Step(h, e))
  {
    hide ApprovedOk;
  }

  lemma CheckStepKeeps(h: Host, e: Event)
    requires Ok(h) && e.CheckEvent?
    ensures Ok(Step(h, e))
  {
    hide Fenced;
  }

  lemma {:induction false} RunKeeps(events: seq<Event>)
    ensures Ok(Run(events))
  {
    hide Ok, Step;
    if events == [] {
      StartIsOk();
    } else {
      var init, e := events[..|events| - 1], events[|events| - 1];
      RunKeeps(init);
      match e
      case GrantEvent(_, _) => AclStepKeeps(Run(init), e);
      case RevokeEvent(_, _) => AclStepKeeps(Run(init), e);
      case IssueEvent(_, _, _, _, _, _, _) => IssueStepKeeps(Run(init), e);
      case TakeEvent(_, _) => TakeStepKeeps(Run(init), e);
      case CheckEvent(_, _, _, _, _) => CheckStepKeeps(Run(init), e);
    }
  }

  lemma StartIsOk()
    ensures Ok(Run([]))
  {
  }

  /**
   * In every run each approval is accepted at most once, for the decision it was issued for, in
   * time, by its own session; and if its epoch was below the ceiling, under the very access list
   * it was issued under.
   */
  lemma AcceptedOnceAndUnderTheSameList(events: seq<Event>)
    ensures var h := Run(events);
            && (forall i | 0 <= i < |h.approved| :: Accepted(h.approved[i]))
            && (forall i, j | 0 <= i < j < |h.approved| :: h.approved[i].serial != h.approved[j].serial)
  {
    hide Run, ApprovedOk, Fenced, Accepted;
    RunKeeps(events);
    forall i | 0 <= i < |Run(events).approved| ensures Accepted(Run(events).approved[i]) {
      ApprovedIsAccepted(Run(events).approved[i]);
    }
  }

  predicate Accepted(x: Approved) {
    && x.record.session == x.session && x.record.binding == x.binding && x.record.intent == x.intent
    && x.record.issuedAt <= x.at < x.record.notAfter
    && Member(x.registry, x.record.project, x.session.actor)
    && (x.record.epoch < U64_MAX ==> x.registry.projects[x.record.project] == x.record.issuedSecurity)
  }

  lemma ApprovedIsAccepted(x: Approved)
    requires ApprovedOk(x)
    ensures Accepted(x)
  {
  }

  // ----- Changing a list -----

  /** A grant or revocation that does change the project's access list. */
  predicate ChangesList(h: Host, e: Event) {
    && (e.GrantEvent? || e.RevokeEvent?)
    && SecurityOf(Step(h, e).registry, e.project).allowed != SecurityOf(h.registry, e.project).allowed
  }

  predicate AtCeiling(a: Record, project: string) { a.project == project && a.epoch >= U64_MAX }

  /** An approval of the project, issued under the last epoch there is, is not spent or not yet checked. */
  predicate OutstandingAtCeiling(h: Host, project: string) {
    || (exists k | k in h.registry.approvals :: AtCeiling(h.registry.approvals[k], project))
    || (exists k | k in h.taken :: AtCeiling(h.taken[k], project))
  }

  /** An approval of the project issued before some point is accepted after it. */
  predicate AcceptsOld(before: Host, after: Host, project: string) {
    exists i | |before.approved| <= i < |after.approved| ::
      OldOne(after.approved[i], before.registry.nextSerial, project)
  }

  predicate OldOne(x: Approved, serials: nat, project: string) { x.serial < serials && x.record.project == project }

  ghost predicate StillAccepted(events: seq<Event>, e: Event, more: seq<Event>)
    requires e.GrantEvent? || e.RevokeEvent?
  {
    AcceptsOld(Run(events), Run(events + [e] + more), e.project)
  }

  /** The old approvals of the project all carry an epoch below one that the project has reached. */
  ghost predicate Void(before: Host, h: Host, project: string, epoch: nat) {
    && project in h.registry.projects && epoch <= h.registry.projects[project].epoch
    && before.registry.nextSerial <= h.registry.nextSerial
    && (forall k | k in h.registry.approvals && k < before.registry.nextSerial ::
          h.registry.approvals[k].project == project ==> h.registry.approvals[k].epoch < epoch)
    && (forall k | k in h.taken && k < before.registry.nextSerial ::
          h.taken[k].project == project ==> h.taken[k].epoch < epoch)
    && !AcceptsOld(before, h, project)
  }

  lemma VoidStep(before: Host, h: Host, project: string, epoch: nat, e: Event)
    requires Void(before, h, project, epoch)
    ensures Void(before, Step(h, e), project, epoch)
  {
    hide Unexpired;
    match e
    case GrantEvent(_, _) =>
    case RevokeEvent(_, _) =>
    case IssueEvent(_, _, _, _, _, now, _) => KeptOnly(h.registry.approvals, now);
    case TakeEvent(_, _) =>
    case CheckEvent(_, _, _, _, _) => VoidCheck(before, h, project, epoch, e);
  }

  lemma KeptOnly(approvals: map<nat, Record>, now: int)
    ensures forall k | k in Unexpired(approvals, now) :: k in approvals && Unexpired(approvals, now)[k] == approvals[k]
  {
  }

  lemma VoidCheck(before: Host, h: Host, project: string, epoch: nat, e: Event)
    requires Void(before, h, project, epoch) && e.CheckEvent?
    ensures Void(before, Step(h, e), project, epoch)
  {
    var n := Step(h, e);
    forall i | |before.approved| <= i < |n.approved|
      ensures !OldOne(n.approved[i], before.registry.nextSerial, project) {
      assert i < |h.approved| ==> n.approved[i] == h.approved[i];
    }
  }

  lemma {:induction false} VoidRun(before: Host, events: seq<Event>, more: seq<Event>, project: string, epoch: nat)
    requires Void(before, Run(events), project, epoch)
    ensures Void(before, Run(events + more), project, epoch)
    decreases |more|
  {
    hide Void, Step, Run;
    if more == [] {
      assert events + more == events;
    } else {
      var k := |more| - 1;
      VoidRun(before, events, more[..k], project, epoch);
      RunSnoc(events + more[..k], more[k]);
      assert events + more == events + more[..k] + [more[k]];
      VoidStep(before, Run(events + more[..k]), project, epoch, more[k]);
    }
  }

  lemma RunSnoc(events: seq<Event>, e: Event)
    ensures Run(events + [e]) == Step(Run(events), e)
  {
    hide Step;
    assert (events + [e])[..|events|] == events;
  }

  /** Right after a change the old approvals are void, unless one was issued at the ceiling. */
  lemma ChangeVoids(h: Host, e: Event)
    requires Ok(h) && ChangesList(h, e) && !OutstandingAtCeiling(h, e.project)
    ensures Void(h, Step(h, e), e.project, Bumped(SecurityOf(h.registry, e.project).epoch))
  {
    hide ApprovedOk;
    AclKeepsSerials(h.registry, e.project, e.actor);
    forall k | k in h.registry.approvals && h.registry.approvals[k].project == e.project
      ensures h.registry.approvals[k].epoch < Bumped(SecurityOf(h.registry, e.project).epoch)
    {
      assert Fenced(h.registry, h.registry.approvals[k]) && !AtCeiling(h.registry.approvals[k], e.project);
    }
    forall k | k in h.taken && h.taken[k].project == e.project
      ensures h.taken[k].epoch < Bumped(SecurityOf(h.registry, e.project).epoch)
    {
      assert Fenced(h.registry, h.taken[k]) && !AtCeiling(h.taken[k], e.project);
    }
  }

  /** An approval issued at the ceiling comes through any change of the list. */
  function Comeback(k: nat, a: Record): seq<Event> {
    [GrantEvent(a.project, a.session.actor), TakeEvent(a.session, k),
     CheckEvent(k, a.session, a.binding, a.intent, a.issuedAt)]
  }

  predicate HeldAtCeiling(h: Host, k: nat, project: string) {
    || (k in h.taken && AtCeiling(h.taken[k], project))
    || (k !in h.taken && k in h.registry.approvals && AtCeiling(h.registry.approvals[k], project))
  }

  lemma CeilingComesBack(events: seq<Event>, e: Event, k: nat)
    requires Ok(Run(events)) && ChangesList(Run(events), e) && HeldAtCeiling(Run(events), k, e.project)
    ensures exists more :: StillAccepted(events, e, more)
  {
    hide Run, Step, Ok, AtCeiling;
    var h := Run(events);
    var a := if k in h.taken then h.taken[k] else h.registry.approvals[k];
    var es := Comeback(k, a);
    StuckAtCeiling(h, e, k, a);
    ComebackAccepted(h, Step(h, e), e.project, k, a);
    RunSnoc(events, e);
    RunSnoc(events + [e], es[0]);
    RunSnoc(events + [e] + [es[0]], es[1]);
    RunSnoc(events + [e] + [es[0]] + [es[1]], es[2]);
    assert events + [e] + [es[0]] + [es[1]] + [es[2]] == events + [e] + es;
    var f := Run(events + [e] + es);
    assert OldOne(f.approved[|h.approved|], h.registry.nextSerial, e.project);
    assert StillAccepted(events, e, es);
  }

  /** At the ceiling a change leaves the epoch. */
  lemma StuckAtCeiling(h: Host, e: Event, k: nat, a: Record)
    requires Ok(h) && ChangesList(h, e) && HeldAtCeiling(h, k, e.project)
    requires a == if k in h.taken then h.taken[k] else h.registry.approvals[k]
    ensures var n := Step(h, e);
            && n.approved == h.approved && n.taken == h.taken && n.registry.approvals == h.registry.approvals
            && e.project in n.registry.projects && n.registry.projects[e.project].epoch == U64_MAX
               && AtCeiling(a, e.project)
            && a.project == e.project
  {
    hide ApprovedOk;
    AclKeepsSerials(h.registry, e.project, e.actor);
    assert Fenced(h.registry, a);
  }

  lemma ComebackAccepted(h: Host, n: Host, project: string, k: nat, a: Record)
    requires Ok(h) && n.approved == h.approved && n.taken == h.taken && n.registry.approvals == h.registry.approvals
    requires project in n.registry.projects && n.registry.projects[project].epoch == U64_MAX
    requires k !in h.taken ==> k in h.registry.approvals
    requires a == (if k in h.taken then h.taken[k] else h.registry.approvals[k]) && AtCeiling(a, project)
    ensures var es := Comeback(k, a);
            var f := Step(Step(Step(n, es[0]), es[1]), es[2]);
            && |f.approved| == |h.approved| + 1 && k < h.registry.nextSerial
            && f.approved[|h.approved|].serial == k && f.approved[|h.approved|].record == a
  {
    hide ApprovedOk;
    assert Fenced(h.registry, a);
    var g := Step(n, Comeback(k, a)[0]);
    assert Member(g.registry, project, a.session.actor) && g.registry.projects[project].epoch == U64_MAX;
    var t := Step(g, Comeback(k, a)[1]);
    assert k in t.taken && t.taken[k] == a && t.registry.projects == g.registry.projects;
  }

  /**
   * Over every run and every continuation: once a grant or revocation has changed a project's list,
   * no approval issued for that project before is ever accepted, if and only if none issued at the
   * epoch ceiling is outstanding. Below the ceiling there is none.
   */
  lemma ListChangeVoidsApprovalsExactly(events: seq<Event>, e: Event)
    requires ChangesList(Run(events), e)
    ensures (exists more :: StillAccepted(events, e, more)) <==> OutstandingAtCeiling(Run(events), e.project)
    ensures SecurityOf(Run(events).registry, e.project).epoch < U64_MAX ==>
              !exists more :: StillAccepted(events, e, more)
  {
    hide Run, Step, Void, Ok, AtCeiling, AcceptsOld;
    RunKeeps(events);
    var h := Run(events);
    OnlyAtCeiling(h, e.project);
    if OutstandingAtCeiling(h, e.project) {
      var k := HeldOne(h, e.project);
      CeilingComesBack(events, e, k);
    } else {
      ChangeVoids(h, e);
      RunSnoc(events, e);
      forall more ensures !StillAccepted(events, e, more) {
        VoidRun(h, events + [e], more, e.project, Bumped(SecurityOf(h.registry, e.project).epoch));
        VoidAccepts(h, Run(events + [e] + more), e.project, Bumped(SecurityOf(h.registry, e.project).epoch));
      }
    }
  }

  lemma OnlyAtCeiling(h: Host, project: string)
    requires Ok(h)
    ensures OutstandingAtCeiling(h, project) ==> SecurityOf(h.registry, project).epoch >= U64_MAX
  {
    hide ApprovedOk;
    if k :| k in h.registry.approvals && AtCeiling(h.registry.approvals[k], project) {
      assert Fenced(h.registry, h.registry.approvals[k]);
    }
    if k :| k in h.taken && AtCeiling(h.taken[k], project) {
      assert Fenced(h.registry, h.taken[k]);
    }
  }

  lemma HeldOne(h: Host, project: string) returns (k: nat)
    requires Ok(h) && OutstandingAtCeiling(h, project)
    ensures HeldAtCeiling(h, k, project)
  {
    hide ApprovedOk, Fenced, AtCeiling;
    if j :| j in h.registry.approvals && AtCeiling(h.registry.approvals[j], project) {
      k := j;
    } else {
      k :| k in h.taken && AtCeiling(h.taken[k], project);
    }
  }

  lemma VoidAccepts(before: Host, h: Host, project: string, epoch: nat)
    requires Void(before, h, project, epoch)
    ensures !AcceptsOld(before, h, project)
  {
    hide AcceptsOld;
  }

  // ----- The ceiling is reached -----

  /** Granting and revoking one actor in turn. */
  function Toggles(project: string, actor: string, n: nat): seq<Event> {
    if n == 0 then []
    else
      var e := if n % 2 == 1 then GrantEvent(project, actor) else RevokeEvent(project, actor);
      Toggles(project, actor, n - 1) + [e]
  }

  function Toggled(project: string, actor: string, n: nat): map<string, ProjectSecurity> {
    if n == 0 then map[]
    else
      var epoch := if n + 1 < U64_MAX then n + 1 else U64_MAX;
      map[project := Security.ProjectSecurity(epoch, if n % 2 == 1 then {actor} else {})]
  }

  lemma {:induction false} TogglesCount(project: string, actor: string, n: nat)
    ensures Run(Toggles(project, actor, n)) == Host(Registry(1, Toggled(project, actor, n), map[]), map[], {}, [])
  {
    hide Run;
    if n == 0 {
      assert Run([]) == Host(Registry(1, map[], map[]), map[], {}, []) by { RunStarts(); }
    } else {
      TogglesCount(project, actor, n - 1);
      var e := if n % 2 == 1 then GrantEvent(project, actor) else RevokeEvent(project, actor);
      RunSnoc(Toggles(project, actor, n - 1), e);
      assert {actor} - {actor} == {} && {} + {actor} == {actor};
    }
  }

  lemma RunStarts()
    ensures Run([]) == Host(Registry(1, map[], map[]), map[], {}, [])
  {
  }

  /** A run takes a project to the ceiling and issues an approval there. */
  function ToTheCeiling(session: Session, project: string, binding: string, intent: string): seq<Event> {
    Toggles(project, session.actor, U64_MAX) + [IssueEvent(session, project, binding, intent, U64_MAX, 0, 1)]
  }

  /** So the fence is open there: the approval survives its own actor's removal. */
  lemma ApprovalSurvivesRevocationAtTheCeiling(session: Session, project: string, binding: string, intent: string)
    ensures var events := ToTheCeiling(session, project, binding, intent);
            var revoke := RevokeEvent(project, session.actor);
            && ChangesList(Run(events), revoke) && !Member(Step(Run(events), revoke).registry, project, session.actor)
            && exists more :: StillAccepted(events, revoke, more)
  {
    hide Run, Toggles, StillAccepted;
    var events := ToTheCeiling(session, project, binding, intent);
    TogglesCount(project, session.actor, U64_MAX);
    RunSnoc(Toggles(project, session.actor, U64_MAX), IssueEvent(session, project, binding, intent, U64_MAX, 0, 1));
    var h := Run(events);
    assert 1 in h.registry.approvals && AtCeiling(h.registry.approvals[1], project);
    assert h.registry.projects[project].allowed == {session.actor};
    assert {session.actor} - {session.actor} == {};
    ListChangeVoidsApprovalsExactly(events, RevokeEvent(project, session.actor));
  }
}
