/** What a change of authority ends: no permit issued before it ever moves a Ref again. */
module FencingAfter {
  import opened Optional
  import opened Security
  import opened Fencing
  import opened FencingState
  import opened FencingRuns
  import FairGate

  /** A control operation that changes who may act for its project, or in which profile. */
  predicate ChangesAuthority(s: State, op: ControlOp) {
    && ApplyOp(s, op).Some?
    && match op
       case GrantAccess(project, actor) => !Allowed(s, project, actor)
       case RevokeAccess(project, actor) => Allowed(s, project, actor)
       case InstallProfile(_, _) => false
       case ReplaceProfile(_, _) => true
       case SuspendProfile(handle, suspended) => s.profiles[handle.serial].suspended != suspended
  }

  lemma ChangeAdvancesEpoch(s: State, op: ControlOp)
    requires ChangesAuthority(s, op)
    ensures var (p, n) := (OpProject(op), ApplyOp(s, op).value);
            p in s.projects && p in n.projects && s.projects[p].epoch < n.projects[p].epoch
  {
  }

  // ----- Permits issued before -----

  /** The permits with serials below the mark, wherever they are, carry at most this epoch of the project. */
  predicate OldPermits(s: System, project: string, mark: nat, epoch: nat) {
    && mark <= s.state.nextSerial
    && (forall k | k in s.state.permits && k < mark :: NotPast(s.state.permits[k], project, epoch))
    && (forall t | t in s.threads :: OldThread(s.threads[t], project, mark, epoch))
  }

  predicate NotPast(p: Permit, project: string, epoch: nat) { p.project == project ==> p.epoch <= epoch }

  predicate OldThread(th: Thread, project: string, mark: nat, epoch: nat) {
    && (th.Carrying? && th.serial < mark ==> NotPast(th.record, project, epoch))
    && (Seated(th) && th.job.Publish? && th.job.serial < mark ==> NotPast(th.job.record, project, epoch))
  }

  lemma AllAreOld(s: System, project: string)
    requires Invariant(s) && project in s.state.projects
    ensures OldPermits(s, project, s.state.nextSerial, s.state.projects[project].epoch)
  {
    hide GatesOk, HistoryOk, CarriersOk, WellIssued, Current;
    forall t | t in s.threads
      ensures OldThread(s.threads[t], project, s.state.nextSerial, s.state.projects[project].epoch) {
      assert ThreadOk(s.state, s.handles, s.threads[t]);
    }
  }

  lemma OldStayOld(s: System, t: nat, a: Action, project: string, mark: nat, epoch: nat)
    requires Invariant(s) && OldPermits(s, project, mark, epoch)
    ensures OldPermits(Step(s, t, a), project, mark, epoch)
  {
    hide Invariant, Live, InTime, Usable, Preparable, DeadlineOf, CoreAllows, DeadlineReading, ApplyOp, Register,
         Issue, WorkStep, FairGate.CanTake, FairGate.CanEnter, FairGate.CanLeave, FairGate.Take, FairGate.Enter,
         FairGate.Leave, ProjectOf;
    StepGrows(s, t, a);
    if At(s, t).Inside? && a.Work? { WorkStaysOld(s, t, At(s, t).job, a.reading, project, mark, epoch); }
  }

  lemma WorkStaysOld(s: System, t: nat, job: Job, r: Reading, project: string, mark: nat, epoch: nat)
    requires Invariant(s) && At(s, t) == Inside(job) && OldPermits(s, project, mark, epoch)
    ensures OldPermits(WorkStep(s, t, job, r), project, mark, epoch)
  {
    hide Invariant, Live, InTime, Usable, Preparable, DeadlineOf, CoreAllows, DeadlineReading, ApplyOp, Register,
         Issue, ProjectOf;
    match job
    case Control(op) => if ApplyOp(s.state, op).Some? { OpKeepsPermits(s.state, op); }
    case Enrol(h, seen) =>
      if seen.Some? && Register(s.state, h, seen.value, r.head).Some? {
        RegisterKeepsPermits(s.state, h, seen.value, r.head);
      }
    case Prepare(authority, session, p, reg, sight) =>
      if sight.Some? && DeadlineOf(authority, r.now, r.ttl, r.grantExpires).Some? {
        var d := DeadlineOf(authority, r.now, r.ttl, r.grantExpires).value;
        IssueAddsOne(s.state, authority, session, p, reg, sight.value.epoch, sight.value.registration, r.now, d,
                     r.grantExpires);
      }
    case Publish(_, _, _, _) =>
    case Finished(_) =>
  }

  lemma OpKeepsPermits(s: State, op: ControlOp)
    requires ApplyOp(s, op).Some?
    ensures ApplyOp(s, op).value.permits == s.permits && s.nextSerial <= ApplyOp(s, op).value.nextSerial
  {
  }

  lemma RegisterKeepsPermits(s: State, h: Handle, generation: nat, head: string)
    requires Register(s, h, generation, head).Some?
    ensures Register(s, h, generation, head).value.permits == s.permits
    ensures s.nextSerial <= Register(s, h, generation, head).value.nextSerial
  {
  }

  lemma IssueAddsOne(s: State, authority: Authority, session: Session, project: string, reg: nat,
                     epoch: nat, seen: Registration, issuedAt: int, notAfter: int, grantExpires: int)
    ensures var r := Issue(s, authority, session, project, reg, epoch, seen, issuedAt, notAfter, grantExpires);
            r.Some? ==> s.nextSerial <= r.value.nextSerial
                        && forall k | k in r.value.permits && k != s.nextSerial ::
                             k in s.permits && r.value.permits[k] == s.permits[k]
  {
  }

  // ----- Moves after the change -----

  /** No move from the given one on was made under an old permit of the project. */
  predicate NoOldMove(s: System, from: nat, project: string, mark: nat) {
    forall i | from <= i < |s.moves| :: !(s.moves[i].serial < mark && s.moves[i].permit.project == project)
  }

  lemma NoOldMoveStep(s: System, t: nat, a: Action, from: nat, project: string, mark: nat, epoch: nat)
    requires Invariant(s) && OldPermits(s, project, mark, epoch) && NoOldMove(s, from, project, mark)
    requires project in s.state.projects && epoch < s.state.projects[project].epoch
    ensures NoOldMove(Step(s, t, a), from, project, mark)
  {
    hide Invariant, OldPermits, Live, InTime, Usable, Preparable, DeadlineOf, CoreAllows, DeadlineReading, ApplyOp,
         Register, Issue, FairGate.CanTake, FairGate.CanEnter, FairGate.CanLeave, FairGate.Take, FairGate.Enter,
         FairGate.Leave, ProjectOf, Askable, Burn;
    if At(s, t).Inside? && At(s, t).job.Publish? && At(s, t).job.validated {
      MoverIsNew(s, t, project, mark, epoch);
    }
  }

  lemma MoverIsNew(s: System, t: nat, project: string, mark: nat, epoch: nat)
    requires Invariant(s) && OldPermits(s, project, mark, epoch) && At(s, t).Inside? && At(s, t).job.Publish?
             && At(s, t).job.validated
    requires project in s.state.projects && epoch < s.state.projects[project].epoch
    ensures !(At(s, t).job.serial < mark && At(s, t).job.record.project == project)
  {
    hide GatesOk, HistoryOk, CarriersOk, StateOk;
    assert ThreadOk(s.state, s.handles, At(s, t)) && OldThread(At(s, t), project, mark, epoch);
  }

  lemma {:induction false} NoOldMoveRun(projects: set<string>, events: seq<Event>, more: seq<Event>, from: nat,
                                        project: string, mark: nat, epoch: nat)
    requires var s := Run(projects, events);
             && OldPermits(s, project, mark, epoch) && NoOldMove(s, from, project, mark)
             && project in s.state.projects && epoch < s.state.projects[project].epoch
    ensures OldPermits(Run(projects, events + more), project, mark, epoch)
    ensures NoOldMove(Run(projects, events + more), from, project, mark)
    decreases |more|
  {
    hide Invariant, Step, OldPermits, NoOldMove, Run;
    if more == [] {
      assert events + more == events;
    } else {
      var k := |more| - 1;
      var before := events + more[..k];
      NoOldMoveRun(projects, events, more[..k], from, project, mark, epoch);
      RunKeeps(projects, before);
      CountersOnlyGrow(projects, events, more[..k]);
      RunSnoc(projects, before, more[k]);
      assert events + more == before + [more[k]];
      OldStayOld(Run(projects, before), more[k].thread, more[k].action, project, mark, epoch);
      NoOldMoveStep(Run(projects, before), more[k].thread, more[k].action, from, project, mark, epoch);
    }
  }

  lemma RunSnoc(projects: set<string>, events: seq<Event>, e: Event)
    ensures Run(projects, events + [e]) == Step(Run(projects, events), e.thread, e.action)
  {
    hide Step;
    assert (events + [e])[..|events|] == events;
  }

  /**
   * Over every run: once a thread has granted or revoked access, replaced a profile, or suspended or
   * resumed one, no continuation ever moves a Ref of that project under a permit issued before,
   * however far that permit had come.
   */
  lemma ChangedAuthorityEndsOldPermits(projects: set<string>, events: seq<Event>, t: nat, r: Reading, more: seq<Event>)
    requires var s := Run(projects, events);
             At(s, t).Inside? && At(s, t).job.Control? && ChangesAuthority(s.state, At(s, t).job.op)
    ensures var s := Run(projects, events);
            var f := Run(projects, events + [Event(t, Work(r))] + more);
            NoOldMove(f, |s.moves|, OpProject(At(s, t).job.op), s.state.nextSerial)
  {
    hide Invariant, Run, OldPermits, ChangesAuthority, ApplyOp, GatesOk;
    var s := Run(projects, events);
    var op := At(s, t).job.op;
    var p := OpProject(op);
    RunKeeps(projects, events);
    ChangeAdvancesEpoch(s.state, op);
    ControlWorks(s, t, op, r);
    AllAreOld(s, p);
    OldStayOld(s, t, Work(r), p, s.state.nextSerial, s.state.projects[p].epoch);
    RunSnoc(projects, events, Event(t, Work(r)));
    NoOldMoveRun(projects, events + [Event(t, Work(r))], more, |s.moves|, p, s.state.nextSerial,
                 s.state.projects[p].epoch);
  }

  lemma ControlWorks(s: System, t: nat, op: ControlOp, r: Reading)
    requires At(s, t) == Inside(Control(op)) && ChangesAuthority(s.state, op)
    ensures var n := Step(s, t, Work(r)); n.moves == s.moves && n.state == ApplyOp(s.state, op).value
  {
    hide ApplyOp;
  }
}
