/**
 * What a revocation and a suspension end: until they are undone, nothing is issued or moved for the
 * actor, and nothing is registered, issued or moved under the profile.
 */
module FencingRevoked {
  import opened Optional
  import opened Security
  import opened Fencing
  import opened FencingState
  import opened FencingRuns
  import opened FencingAfter
  import opened FencingAccess
  import FairGate

  // ----- What a step needs -----

  /** The actor of the permit has access, and its profile is not suspended. */
  predicate Authorises(s: State, p: Permit) {
    Allowed(s, p.project, p.session.actor) && p.profile in s.profiles && !s.profiles[p.profile].suspended
  }

  predicate MovesNeed(s: System, n: System) {
    && s.moves <= n.moves
    && forall i | |s.moves| <= i < |n.moves| :: n.moves[i].state == s.state && Authorises(s.state, n.moves[i].permit)
  }

  predicate PermitsNeed(s: State, n: State) {
    forall k | k in n.permits ::
      if k in s.permits then n.permits[k] == s.permits[k] else k == s.nextSerial && Authorises(s, n.permits[k])
  }

  predicate RegistrationsNeed(s: State, n: State) {
    forall k | k in n.registrations ::
      if k in s.registrations then n.registrations[k] == s.registrations[k]
      else k == s.nextSerial && n.registrations[k].profile in s.profiles
           && !s.profiles[n.registrations[k].profile].suspended
  }

  predicate StepNeeds(s: System, n: System) {
    MovesNeed(s, n) && PermitsNeed(s.state, n.state) && RegistrationsNeed(s.state, n.state)
  }

  lemma OpNeedsNothing(s: State, op: ControlOp)
    requires ApplyOp(s, op).Some?
    ensures PermitsNeed(s, ApplyOp(s, op).value) && RegistrationsNeed(s, ApplyOp(s, op).value)
  {
  }

  predicate SerialIsFresh(s: State) { s.nextSerial !in s.permits && s.nextSerial !in s.registrations }

  lemma NextIsFresh(s: System)
    requires Invariant(s)
    ensures SerialIsFresh(s.state)
  {
    hide ThreadsOk, GatesOk, HistoryOk, CarriersOk, Fenced;
  }

  lemma RegisterNeeds(s: State, h: Handle, generation: nat, head: string)
    requires SerialIsFresh(s)
    ensures var r := Register(s, h, generation, head);
            r.Some? ==> PermitsNeed(s, r.value) && RegistrationsNeed(s, r.value)
  {
  }

  lemma BurnNeeds(s: State, authority: Authority, serial: nat)
    ensures var b := Burn(s, authority, serial);
            b.Some? ==> PermitsNeed(s, b.value.1) && RegistrationsNeed(s, b.value.1)
  {
  }

  lemma IssueNeeds(s: State, authority: Authority, session: Session, project: string, reg: nat,
                   epoch: nat, seen: Registration, issuedAt: int, notAfter: int, grantExpires: int)
    requires SerialIsFresh(s)
    ensures var r := Issue(s, authority, session, project, reg, epoch, seen, issuedAt, notAfter, grantExpires);
            r.Some? ==> PermitsNeed(s, r.value) && RegistrationsNeed(s, r.value)
  {
  }

  lemma SameNeeds(s: State)
    ensures PermitsNeed(s, s) && RegistrationsNeed(s, s)
  {
  }

  lemma ValidatedIsAuthorised(s: System, t: nat)
    requires Invariant(s) && At(s, t).Inside? && At(s, t).job.Publish? && At(s, t).job.validated
    ensures Authorises(s.state, At(s, t).job.record)
  {
    hide GatesOk, HistoryOk, CarriersOk, StateOk;
    assert ThreadOk(s.state, s.handles, At(s, t));
  }

  lemma WorkNeeds(s: System, t: nat, job: Job, r: Reading)
    requires Invariant(s) && At(s, t) == Inside(job)
    ensures StepNeeds(s, WorkStep(s, t, job, r))
  {
    hide Invariant, Live, InTime, Usable, Preparable, DeadlineOf, CoreAllows, DeadlineReading, ApplyOp, Register,
         Issue, ProjectOf, Authorises, PermitsNeed, RegistrationsNeed;
    SameNeeds(s.state);
    NextIsFresh(s);
    match job
    case Control(op) => if ApplyOp(s.state, op).Some? { OpNeedsNothing(s.state, op); }
    case Enrol(h, seen) => if seen.Some? { RegisterNeeds(s.state, h, seen.value, r.head); }
    case Prepare(authority, session, p, reg, sight) =>
      if sight.Some? && DeadlineOf(authority, r.now, r.ttl, r.grantExpires).Some? {
        IssueNeeds(s.state, authority, session, p, reg, sight.value.epoch, sight.value.registration, r.now,
                   DeadlineOf(authority, r.now, r.ttl, r.grantExpires).value, r.grantExpires);
      }
    case Publish(_, _, timed, validated) => if validated { ValidatedIsAuthorised(s, t); }
    case Finished(_) =>
  }

  /** Every step issues, registers and moves only under access and a profile that are in force at that step. */
  lemma EveryStepNeeds(s: System, t: nat, a: Action)
    requires Invariant(s)
    ensures StepNeeds(s, Step(s, t, a))
  {
    hide Invariant, Live, InTime, Askable, Authorises, PermitsNeed, RegistrationsNeed, WorkStep, Burn,
         FairGate.CanTake, FairGate.CanEnter, FairGate.CanLeave, FairGate.Take, FairGate.Enter, FairGate.Leave,
         ProjectOf;
    SameNeeds(s.state);
    if At(s, t).Inside? && a.Work? { WorkNeeds(s, t, At(s, t).job, a.reading); }
    if a.Consume? { BurnNeeds(s.state, a.authority, a.serial); }
  }

  // ----- Revocation -----

  /** Nothing since the marks was issued to the actor for the project or moved in a session of theirs. */
  predicate NothingFor(s: System, moves: nat, mark: nat, project: string, actor: string) {
    && mark <= s.state.nextSerial
    && (forall k | k in s.state.permits && mark <= k :: !IsFor(s.state.permits[k], project, actor))
    && (forall i | moves <= i < |s.moves| :: !IsFor(s.moves[i].permit, project, actor))
  }

  predicate IsFor(p: Permit, project: string, actor: string) { p.project == project && p.session.actor == actor }

  lemma NothingForStep(s: System, n: System, moves: nat, mark: nat, project: string, actor: string)
    requires StepNeeds(s, n) && s.state.nextSerial <= n.state.nextSerial
    requires NothingFor(s, moves, mark, project, actor) && !Allowed(s.state, project, actor)
    ensures NothingFor(n, moves, mark, project, actor)
  {
    forall i | moves <= i < |n.moves| ensures !IsFor(n.moves[i].permit, project, actor) {
      if i < |s.moves| { assert n.moves[i] == s.moves[i]; }
    }
  }

  /** From the event on, no operation that went through says this. */
  predicate NoneSays(projects: set<string>, events: seq<Event>, from: nat, op: ControlOp) {
    forall i | from <= i < |events| :: EffectAt(projects, events, i) != Some(op)
  }

  lemma {:induction false} StaysOut(projects: set<string>, events: seq<Event>, more: seq<Event>, moves: nat, mark: nat,
                                    project: string, actor: string)
    requires var s := Run(projects, events);
             NothingFor(s, moves, mark, project, actor) && !Allowed(s.state, project, actor)
    requires NoneSays(projects, events + more, |events|, GrantAccess(project, actor))
    ensures var f := Run(projects, events + more);
            NothingFor(f, moves, mark, project, actor) && !Allowed(f.state, project, actor)
    decreases |more|
  {
    hide Invariant, Step, NothingFor, Run, Effect, StepNeeds, Grows;
    if more == [] {
      assert events + more == events;
    } else {
      var k := |more| - 1;
      var before, all := events + more[..k], events + more;
      assert all == before + [more[k]] && all[..|before|] == before;
      forall i: nat | |events| <= i < |before|
        ensures EffectAt(projects, before, i) != Some(GrantAccess(project, actor)) {
        EffectOfPrefix(projects, all, |before|, i);
      }
      StaysOut(projects, events, more[..k], moves, mark, project, actor);
      var s := Run(projects, before);
      RunKeeps(projects, before);
      RunSnoc(projects, before, more[k]);
      assert EffectAt(projects, all, |before|) == Effect(s, more[k]);
      AccessStep(s, more[k], project, actor);
      EveryStepNeeds(s, more[k].thread, more[k].action);
      SerialGrows(s, more[k].thread, more[k].action);
      NothingForStep(s, Run(projects, all), moves, mark, project, actor);
    }
  }

  lemma SerialGrows(s: System, t: nat, a: Action)
    requires Invariant(s)
    ensures s.state.nextSerial <= Step(s, t, a).state.nextSerial
  {
    hide Invariant, Step;
    StepGrows(s, t, a);
  }

  lemma StartsWithNothing(s: System, project: string, actor: string)
    requires Invariant(s)
    ensures NothingFor(s, |s.moves|, s.state.nextSerial, project, actor)
  {
    hide ThreadsOk, GatesOk, HistoryOk, CarriersOk, Fenced;
  }

  /**
   * Over every run and every continuation: once a revocation of an actor has gone through, they have
   * no access, no permit is issued to them for the project and no Ref of it is moved in a session of
   * theirs, until a grant to that actor goes through.
   */
  lemma RevocationShutsOut(projects: set<string>, events: seq<Event>, e: Event, more: seq<Event>, project: string,
                           actor: string)
    requires var s := Run(projects, events); Effect(s, e) == Some(RevokeAccess(project, actor))
    requires NoneSays(projects, events + [e] + more, |events| + 1, GrantAccess(project, actor))
    ensures var s, f := Run(projects, events), Run(projects, events + [e] + more);
            && !Allowed(f.state, project, actor)
            && NothingFor(f, |s.moves|, s.state.nextSerial, project, actor)
  {
    hide Invariant, Step, Run, NothingFor, StepNeeds, Effect;
    var s := Run(projects, events);
    RunKeeps(projects, events);
    StartsWithNothing(s, project, actor);
    RunSnoc(projects, events, e);
    AccessStep(s, e, project, actor);
    RevokeIssuesNothing(s, e, project, actor);
    StaysOut(projects, events + [e], more, |s.moves|, s.state.nextSerial, project, actor);
  }

  lemma RevokeIssuesNothing(s: System, e: Event, project: string, actor: string)
    requires Invariant(s) && Effect(s, e).Some? && NothingFor(s, |s.moves|, s.state.nextSerial, project, actor)
    ensures NothingFor(Step(s, e.thread, e.action), |s.moves|, s.state.nextSerial, project, actor)
  {
    hide Invariant, ApplyOp, Accepts;
    var op := Effect(s, e).value;
    AcceptedExactly(s.state, op);
    OpKeepsPermits(s.state, op);
  }

  // ----- Suspension -----

  /** Nothing since the marks was registered, issued or moved under the profile. */
  predicate NothingUnder(s: System, moves: nat, mark: nat, serial: nat) {
    && mark <= s.state.nextSerial
    && (forall k | k in s.state.registrations && mark <= k :: s.state.registrations[k].profile != serial)
    && (forall k | k in s.state.permits && mark <= k :: s.state.permits[k].profile != serial)
    && (forall i | moves <= i < |s.moves| :: s.moves[i].permit.profile != serial)
  }

  lemma NothingUnderStep(s: System, n: System, moves: nat, mark: nat, serial: nat)
    requires StepNeeds(s, n) && s.state.nextSerial <= n.state.nextSerial
    requires NothingUnder(s, moves, mark, serial) && Suspended(s.state, serial)
    ensures NothingUnder(n, moves, mark, serial)
  {
    forall i | moves <= i < |n.moves| ensures n.moves[i].permit.profile != serial {
      if i < |s.moves| { assert n.moves[i] == s.moves[i]; }
    }
  }

  /** From the event on, no operation that went through resumes or replaces the profile. */
  predicate NoneResumes(projects: set<string>, events: seq<Event>, from: nat, serial: nat) {
    forall i | from <= i < |events| :: SuspensionWord(EffectAt(projects, events, i), serial) != Some(false)
  }

  lemma {:induction false} StaysSuspended(projects: set<string>, events: seq<Event>, more: seq<Event>, moves: nat,
                                          mark: nat, serial: nat)
    requires var s := Run(projects, events); NothingUnder(s, moves, mark, serial) && Suspended(s.state, serial)
    requires NoneResumes(projects, events + more, |events|, serial)
    ensures var f := Run(projects, events + more);
            NothingUnder(f, moves, mark, serial) && Suspended(f.state, serial)
    decreases |more|
  {
    hide Invariant, Step, NothingUnder, Run, Effect, StepNeeds, Grows, SuspensionWord;
    if more == [] {
      assert events + more == events;
    } else {
      var k := |more| - 1;
      var before, all := events + more[..k], events + more;
      assert all == before + [more[k]] && all[..|before|] == before;
      forall i: nat | |events| <= i < |before|
        ensures SuspensionWord(EffectAt(projects, before, i), serial) != Some(false) {
        EffectOfPrefix(projects, all, |before|, i);
      }
      StaysSuspended(projects, events, more[..k], moves, mark, serial);
      var s := Run(projects, before);
      RunKeeps(projects, before);
      RunSnoc(projects, before, more[k]);
      assert EffectAt(projects, all, |before|) == Effect(s, more[k]);
      SuspensionStep(s, more[k], serial);
      EveryStepNeeds(s, more[k].thread, more[k].action);
      SerialGrows(s, more[k].thread, more[k].action);
      NothingUnderStep(s, Run(projects, all), moves, mark, serial);
    }
  }

  lemma StartsUnderNothing(s: System, serial: nat)
    requires Invariant(s)
    ensures NothingUnder(s, |s.moves|, s.state.nextSerial, serial)
  {
    hide ThreadsOk, GatesOk, HistoryOk, CarriersOk, Fenced;
  }

  lemma SuspendStartsNothing(s: System, e: Event, serial: nat)
    requires Invariant(s) && Effect(s, e).Some? && NothingUnder(s, |s.moves|, s.state.nextSerial, serial)
    ensures NothingUnder(Step(s, e.thread, e.action), |s.moves|, s.state.nextSerial, serial)
  {
    hide Invariant, ApplyOp, Accepts;
    var op := Effect(s, e).value;
    AcceptedExactly(s.state, op);
    OpKeepsPermits(s.state, op);
    OpKeepsRegistrations(s.state, op);
  }

  lemma OpKeepsRegistrations(s: State, op: ControlOp)
    requires ApplyOp(s, op).Some?
    ensures ApplyOp(s, op).value.registrations == s.registrations
  {
  }

  /**
   * Over every run and every continuation: once a suspension of a profile has gone through, it is
   * suspended and nothing is registered, issued or moved under it, until it is resumed or replaced.
   */
  lemma SuspensionStopsEverything(projects: set<string>, events: seq<Event>, e: Event, more: seq<Event>, h: Handle)
    requires var s := Run(projects, events); Effect(s, e) == Some(SuspendProfile(h, true))
    requires NoneResumes(projects, events + [e] + more, |events| + 1, h.serial)
    ensures var s, f := Run(projects, events), Run(projects, events + [e] + more);
            Suspended(f.state, h.serial) && NothingUnder(f, |s.moves|, s.state.nextSerial, h.serial)
  {
    hide Invariant, Step, Run, NothingUnder, StepNeeds, Effect;
    var s := Run(projects, events);
    RunKeeps(projects, events);
    StartsUnderNothing(s, h.serial);
    RunSnoc(projects, events, e);
    SuspensionStep(s, e, h.serial);
    SuspendStartsNothing(s, e, h.serial);
    StaysSuspended(projects, events + [e], more, |s.moves|, s.state.nextSerial, h.serial);
  }
}
